/** Schemas on which converting a result again does not give it back, and one on which
    it does although siblings compete. */
module IdempotenceExamples {
  import opened Results
  import opened Order
  import opened Names
  import opened Schema
  import opened Json
  import opened Template
  import opened FillTheorems
  import opened ConformTheorems
  import opened ConversionRange
  import opened Idempotence
  import opened IdempotenceTheorems

  /** A default text of 4 GiB or more is filled in but not accepted back. The API keeps
      no object of that size, so this is a matter of the engine, not of a cluster. */
  lemma LongDefaultIsNotStable(env: Env, text: string)
    requires |text| >= TEXT_LIMIT
    ensures var t := map[[] := Field([], String(Some(text), AnyLength), true)];
            && ClosedTree(t) && Descends(t)
            && Converted(env, t, Null) == Ok(Str(text))
            && Converted(env, t, Str(text)) == Err(TooLong)
  {
  }

  /** A key whose value never fits its field spoils the whole object. */
  lemma {:induction false} OneBadKey(env: Env, t: Table, v: Value, n: Path, optional: bool, value: Value,
                                     keys: seq<string>, bad: string)
    requires n in t && value.Obj? && bad in keys && forall k :: k in keys ==> k in value.fields
    requires Extend(n, env.snake(bad)) in t
    requires forall x :: Updated(env, t, x, Extend(n, env.snake(bad)), optional, value.fields[bad]).Err?
    ensures UpdatedFields(env, t, v, n, optional, value, keys).Err?
    decreases |keys|
  {
    if keys[0] != bad {
      assert bad in keys[1..];
      var e := Key(env.snake(keys[0]));
      match Enter(t, v, n, e) {
        case Unknown =>
          OneBadKey(env, t, v, n, optional, value, keys[1..], bad);
        case Refused(_) =>
        case Inside(node, next) =>
          var first := Updated(env, t, At(node, e), next, optional, value.fields[keys[0]]);
          if first.Ok? {
            OneBadKey(env, t, Set(node, e, first.value), n, optional, value, keys[1..], bad);
          }
      }
    }
  }

  /** An object with a boolean and an integer child. */
  function Siblings(a: string, b: string): Table
    requires a != b
  {
    map[
      [] := Field([], Object([[a], [b]], Static), false),
      [a] := Field([a], Boolean(Some(true)), false),
      [b] := Field([b], Integer(Some(1), None, None), false)
    ]
  }

  /** When the snake case of one sibling is the other, such as `foo-bar` and
      `foo_bar`, a conversion can yield a value that is then refused: the first
      sibling's value is written to the second. */
  lemma SiblingsAreNotStable(env: Env, a: string, b: string)
    requires a != b && env.snake(a) == b
    ensures var t := Siblings(a, b);
            && Descends(t)
            && Converted(env, t, Obj(map[])) == Ok(Obj(map[a := Bool(true), b := Num(Whole(1))]))
            && Converted(env, t, Obj(map[a := Bool(true), b := Num(Whole(1))])).Err?
  {
    FillSiblings(env, a, b);
    RefuseSiblings(env, a, b);
  }

  lemma RefuseSiblings(env: Env, a: string, b: string)
    requires a != b && env.snake(a) == b
    ensures Descends(Siblings(a, b))
    ensures Converted(env, Siblings(a, b), Obj(map[a := Bool(true), b := Num(Whole(1))])).Err?
  {
    var t := Siblings(a, b);
    var w := Obj(map[a := Bool(true), b := Num(Whole(1))]);
    assert Extend([], b) == [b];
    forall x ensures Updated(env, t, x, [b], false, Bool(true)).Err? {
    }
    OneBadKey(env, t, Null, [], false, w, SortedKeys(w.fields.Keys), a);
  }

  lemma FillSiblings(env: Env, a: string, b: string)
    requires a != b
    ensures var t := Siblings(a, b);
            && Descends(t)
            && Converted(env, t, Obj(map[])) == Ok(Obj(map[a := Bool(true), b := Num(Whole(1))]))
  {
    UpdateNothing(env, Siblings(a, b));
    FillChildren(env, Siblings(a, b), a, b);
  }

  lemma UpdateNothing(env: Env, t: Table)
    requires [] in t && t[[]].kind.Object? && t[[]].kind.objectKind.Static?
    ensures UpdatedAt(env, t, Null, [], false, Obj(map[])) == Ok(Null)
  {
    var none: map<string, Value> := map[];
    assert SortedKeys(none.Keys) == [] by {
      assert forall k :: k in SortedKeys(none.Keys) <==> k in none.Keys;
    }
  }

  lemma FillChildren(env: Env, t: Table, a: string, b: string)
    requires a != b && t == Siblings(a, b)
    ensures Descends(t)
    ensures FilledFields(env, t, Obj(map[]), [], false, [[a], [b]]) == Ok(Obj(map[a := Bool(true), b := Num(Whole(1))]))
  {
    FillLeafChild(env, t, Obj(map[]), a, [[b]]);
    FillLeafChild(env, t, Obj(map[a := Bool(true)]), b, []);
    assert [[a], [b]] == [[a]] + [[b]] && [[b]] == [[b]] + [];
  }

  lemma FillLeafChild(env: Env, t: Table, v: Value, c: string, rest: seq<Path>)
    requires Descends(t) && [] in t && [c] in t && v.Obj? && c !in v.fields && [] !in rest
    requires t[[c]].kind.Children().None? && !t[[c]].kind.NoneKind? && Default(env, t[[c]].kind).Some?
    ensures FilledFields(env, t, v, [], false, [[c]] + rest) ==
            FilledFields(env, t, Obj(v.fields[c := Default(env, t[[c]].kind).value]), [], false, rest)
  {
    var x := Default(env, t[[c]].kind).value;
    var children := [[c]] + rest;
    assert Extend([], c) == [c] && children[1..] == rest;
    FilledFirst(env, t, v, [], false, children, Ok(x));
    assert Set(Enter(t, v, [], Key(c)).node, Key(c), x) == Obj(v.fields[c := x]);
  }

  /** Two boolean children. */
  function Twins(a: string, b: string): Table
    requires a != b
  {
    map[
      [] := Field([], Object([[a], [b]], Static), false),
      [a] := Field([a], Boolean(Some(true)), false),
      [b] := Field([b], Boolean(None), false)
    ]
  }

  /** But such siblings need not do harm: here the other sibling's default is written
      first, fits, and is always overwritten. So the condition of `IdempotentExactly`
      cannot be that there are none. */
  lemma TwinsAreStable(env: Env, a: string, b: string)
    requires a != b && env.snake(a) == b && Less(a, b) && IsPath([a]) && IsPath([b])
    requires SnakeIdempotent(env) && ClockOk(env)
    ensures ClosedTree(Twins(a, b)) && Descends(Twins(a, b)) && !Uncontested(env, Twins(a, b))
    ensures exists value :: Converted(env, Twins(a, b), value).Ok?
    ensures forall value :: !Changes(env, env, Twins(a, b), value)
  {
    var t := Twins(a, b);
    TwinsClosed(a, b);
    TwinsQuiet(env, a, b);
    assert env.(now := env.now) == env;
    IdempotentExactly(env, env.now, t);
    assert Extend([], a) == [a] && Extend([], b) == [b];
    TwinsConvert(env, a, b);
  }

  lemma TwinsClosed(a: string, b: string)
    requires a != b && IsPath([a]) && IsPath([b])
    ensures ClosedTree(Twins(a, b)) && DynamicListNothing(Twins(a, b))
  {
    var t := Twins(a, b);
    forall n, p | n in t && p <= n ensures p in t {
      assert |p| == |n| ==> p == n;
    }
    forall c ensures c in DirectChildren(t.Keys, []) <==> c in [[a], [b]] {
    }
    assert (set c | c in [[a], [b]]) == DirectChildren(t.Keys, []);
  }

  lemma TwinsInOrder(a: string, b: string)
    requires a != b && Less(a, b)
    ensures NamesBelow(Twins(a, b), []) == [a, b]
  {
    var t := Twins(a, b);
    forall c ensures c in ChildNames(t, []) <==> c in {a, b} {
      InChildNames(t, [], c);
      assert Extend([], c) == [c];
    }
    assert ChildNames(t, []) == {a, b} == Elements([a, b]);
    SortedUnique(NamesBelow(t, []), [a, b], Same);
  }

  lemma TwinsBelow(a: string, b: string, n: Path, c: string)
    requires a != b
    ensures Extend(n, c) in Twins(a, b) <==> n == [] && (c == a || c == b)
  {
    assert Extend([], c) == [c];
  }

  lemma TwinsQuiet(env: Env, a: string, b: string)
    requires a != b && env.snake(a) == b && env.snake(b) == b && Less(a, b)
    ensures Quiet(env, Twins(a, b)) && StandsStill(env, env, Twins(a, b), [])
  {
    var t := Twins(a, b);
    forall p | Leads(env, t, [], p) ensures DefaultTaken(env, t, p) && Secure(env, t, p) {
      TwinsPath(env, a, b, p);
      TwinsSecure(env, a, b);
    }
    TwinsTaken(env, a, b);
  }

  lemma TwinsPath(env: Env, a: string, b: string, p: seq<string>)
    requires a != b && env.snake(a) == b && Leads(env, Twins(a, b), [], p)
    ensures p == [b]
  {
    TwinsBelow(a, b, [], p[0]);
    assert Extend([], p[0]) == [b];
    assert p[1..] == [];
  }

  lemma TwinsTaken(env: Env, a: string, b: string)
    requires a != b && env.snake(a) == b && env.snake(b) == b
    ensures Taken(env, Twins(a, b), [], false) && StandsStill(env, env, Twins(a, b), [])
  {
    var t := Twins(a, b);
    assert Extend([], a) == [a] && Extend([], b) == [b];
    assert Untouched(env, t, [a]) == Bool(true);
    forall c | Extend([], c) in t
      ensures if Reachable(env, c) then Taken(env, t, Extend([], c), false) && StandsStill(env, env, t, Extend([], c))
              else IsTaken(env, t, [], false, c)
    {
      TwinsBelow(a, b, [], c);
    }
  }

  lemma TwinsSecure(env: Env, a: string, b: string)
    requires a != b && env.snake(a) == b && env.snake(b) == b && Less(a, b)
    ensures var t := Twins(a, b); Leads(env, t, [], [b]) && DefaultTaken(env, t, [b]) && Secure(env, t, [b])
  {
    var t := Twins(a, b);
    TwinsLead(env, a, b);
    TwinsLater(env, a, b);
    NeverNull(env, t, [b]);
  }

  lemma TwinsLead(env: Env, a: string, b: string)
    requires a != b && env.snake(b) == b
    ensures Leads(env, Twins(a, b), [], [b]) && End([], [b]) == [b] && !Inherits(Twins(a, b), [], false, [b])
  {
    assert Extend([], b) == [b] && [b][1..] == [];
    assert Leads(env, Twins(a, b), [b], []);
  }

  /** A required boolean does not conform when it is null. */
  lemma NeverNull(env: Env, t: Table, m: Path)
    requires m in t && t[m].kind.Boolean? && !t[m].optional
    ensures !Conforms(env, t, Null, m, false)
  {
  }

  lemma TwinsLater(env: Env, a: string, b: string)
    requires a != b && env.snake(b) == b && Less(a, b)
    ensures Leads(env, Twins(a, b), [], [b]) && Later(env, Twins(a, b), [], [b]) == None
  {
    var t := Twins(a, b);
    TwinsLead(env, a, b);
    TwinsInOrder(a, b);
    UntouchedObject(env, t, []);
    assert [a, b][1..] == [b] && [b][1..] == [];
    assert From([a, b], b) == From([b], b) == [];
    assert Later(env, t, [b], []) == None;
  }

  lemma TwinsConvert(env: Env, a: string, b: string)
    requires a != b && IsPath([a]) && IsPath([b]) && env.snake(a) == b && SnakeIdempotent(env) && ClockOk(env)
    ensures Descends(Twins(a, b)) && exists value :: Converted(env, Twins(a, b), value).Ok?
  {
    var t := Twins(a, b);
    var w := Obj(map[a := Bool(true), b := Bool(false)]);
    TwinsClosed(a, b);
    TwinsHere(a, b);
    TwinsHold(env, t, a, b, w.fields);
    ObjectHolds(env, t, w);
    ResultsExactly(env, t, w);
    var value :| Converted(env, t, value) == Ok(w);
  }

  /** The entries of an object are those of a result. */
  ghost predicate EntriesHold(env: Env, t: Table, fields: map<string, Value>) {
    && (forall c :: c in fields <==> Extend([], c) in t)
    && (forall c :: c in fields ==>
          && Conforms(env, t, fields[c], Extend([], c), false)
          && if Reachable(env, c) then Idle(env, t, fields[c], Extend([], c)) else fields[c] == Untouched(env, t, Extend([], c)))
  }

  lemma ObjectHolds(env: Env, t: Table, w: Value)
    requires IsStatic(t, []) && !t[[]].optional && w.Obj? && EntriesHold(env, t, w.fields)
    ensures IsResult(env, t, w)
  {
  }

  /** The two children of the root. */
  ghost predicate HasTwins(t: Table, a: string, b: string) {
    && (forall c :: Extend([], c) in t <==> c == a || c == b)
    && t[Extend([], a)].kind == Boolean(Some(true)) && t[Extend([], b)].kind == Boolean(None)
  }

  lemma TwinsHere(a: string, b: string)
    requires a != b
    ensures HasTwins(Twins(a, b), a, b)
  {
    forall c ensures Extend([], c) in Twins(a, b) <==> c == a || c == b {
      TwinsBelow(a, b, [], c);
    }
    assert Extend([], a) == [a] && Extend([], b) == [b];
  }

  lemma TwinsHold(env: Env, t: Table, a: string, b: string, fields: map<string, Value>)
    requires HasTwins(t, a, b) && env.snake(a) == b && env.snake(b) == b
    requires fields.Keys == {a, b} && fields[a] == Bool(true) && fields[b].Bool?
    ensures EntriesHold(env, t, fields)
  {
    TwinConforms(env, t, fields[a], Extend([], a));
    TwinConforms(env, t, fields[b], Extend([], b));
  }

  lemma TwinConforms(env: Env, t: Table, v: Value, m: Path)
    requires m in t && t[m].kind.Boolean? && v.Bool?
    ensures Conforms(env, t, v, m, false) && Idle(env, t, v, m)
  {
  }
}
