/** When converting a result again gives it back: the exact condition on the schema.

    A key of an item is written to its snake case. So a name of the schema that is not
    snake case is never written; but when an item is a result, its entry is there, with
    its default, and is written to the sibling that is its snake case, if there is one,
    before or after the sibling's own entry. */
module Idempotence {
  import opened Results
  import opened Names
  import opened Schema
  import opened Json
  import opened Template
  import opened FillTheorems
  import opened ConformTheorems
  import opened ConversionRange

  // ------------------------------------------------------------- when an update fails

  /** Whether a write succeeds does not depend on what was written before, and the
      entries of an object are written with success if each of them is. */
  lemma {:induction false} UpdateSucceeds(env: Env, t: Table, v: Value, n: Path, optional: bool, value: Value)
    requires n in t && Partial(env, t, v, n)
    ensures Updated(env, t, v, n, optional, value).Ok? <==> Updated(env, t, Null, n, optional, value).Ok?
    decreases value, 1, 0
  {
    if IsStatic(t, n) && value.Obj? {
      var keys := SortedKeys(value.fields.Keys);
      FieldsSucceed(env, t, v, n, optional || t[n].optional, value, keys);
      FieldsSucceed(env, t, Null, n, optional || t[n].optional, value, keys);
    }
  }

  /** The entry of the key is ignored, or written with success. */
  predicate EntrySucceeds(env: Env, t: Table, n: Path, optional: bool, value: Value, k: string)
    requires value.Obj? && k in value.fields
  {
    var m := Extend(n, env.snake(k));
    m in t ==> Updated(env, t, Null, m, optional, value.fields[k]).Ok?
  }

  lemma {:induction false} FieldsSucceed(env: Env, t: Table, v: Value, n: Path, optional: bool, value: Value,
                                         keys: seq<string>)
    requires IsStatic(t, n) && Partial(env, t, v, n) && value.Obj? && forall k :: k in keys ==> k in value.fields
    ensures UpdatedFields(env, t, v, n, optional, value, keys).Ok? <==>
            forall k :: k in keys ==> EntrySucceeds(env, t, n, optional, value, k)
    decreases value, 0, |keys|
  {
    if keys != [] {
      var c := env.snake(keys[0]);
      assert keys == [keys[0]] + keys[1..];
      if Extend(n, c) !in t {
        FieldsSucceed(env, t, v, n, optional, value, keys[1..]);
      } else {
        var first := Updated(env, t, Child(v, c), Extend(n, c), optional, value.fields[keys[0]]);
        var x := if first.Ok? then first.value else Null;
        PartialChild(env, t, v, n, c);
        UpdateSucceeds(env, t, Child(v, c), Extend(n, c), optional, value.fields[keys[0]]);
        UpdatedFirst(env, t, v, n, optional, value, keys, x);
        assert keys[0] in keys && (EntrySucceeds(env, t, n, optional, value, keys[0]) <==> first.Ok?);
        if first.Ok? {
          UpdateKeepsPartial(env, t, Child(v, c), Extend(n, c), optional, value.fields[keys[0]]);
          PartialSet(env, t, v, n, c, x);
          FieldsSucceed(env, t, Obj(Entries(v)[c := x]), n, optional, value, keys[1..]);
        }
      }
    }
  }

  // ------------------------------------------------------ what an update leaves behind

  /** The reachable names `p` lead from `n` through static objects to a field that is
      written as a whole. */
  predicate Leads(env: Env, t: Table, n: Path, p: seq<string>)
    decreases |p|
  {
    n in t &&
    if p == [] then !IsStatic(t, n)
    else IsStatic(t, n) && Reachable(env, p[0]) && Extend(n, p[0]) in t && Leads(env, t, Extend(n, p[0]), p[1..])
  }

  function End(n: Path, p: seq<string>): Path
    decreases |p|
  {
    if p == [] then n else End(Extend(n, p[0]), p[1..])
  }

  /** The optionality inherited there. */
  predicate Inherits(t: Table, n: Path, optional: bool, p: seq<string>)
    decreases |p|
  {
    if p == [] then optional
    else Inherits(t, Extend(n, p[0]), optional || (n in t && t[n].optional), p[1..])
  }

  /** What the value holds there. */
  function Held(v: Value, p: seq<string>): Value
    decreases |p|
  {
    if p == [] then v else Held(Child(v, p[0]), p[1..])
  }

  lemma {:induction false} LeadsToEnd(env: Env, t: Table, n: Path, p: seq<string>)
    requires Leads(env, t, n, p)
    ensures End(n, p) in t && !IsStatic(t, End(n, p))
    decreases |p|
  {
    if p != [] {
      LeadsToEnd(env, t, Extend(n, p[0]), p[1..]);
    }
  }

  /** What writing `x` leaves in a field that is written as a whole, unless it leaves
      the field alone. */
  function Sticks(env: Env, kind: Kind, x: Value): Option<Value> {
    if kind.NoneKind? then Some(Null)
    else if kind.Object? then if x.Obj? then Some(x) else None
    else if kind.ObjectArray? then None
    else match Check(env, kind, x) case Accepted(y) => Some(y) case _ => None
  }

  /** What writing `x` to the field `n` leaves at `p` below it. */
  function Stored(env: Env, t: Table, n: Path, x: Value, p: seq<string>): Option<Value>
    requires Leads(env, t, n, p)
    decreases |p|, 1, 0
  {
    if p == [] then Sticks(env, t[n].kind, x)
    else if !x.Obj? then None
    else StoredBy(env, t, n, x, SortedKeys(x.fields.Keys), p)
  }

  /** The last of these keys that leaves something there decides. */
  function StoredBy(env: Env, t: Table, n: Path, x: Value, keys: seq<string>, p: seq<string>): Option<Value>
    requires Leads(env, t, n, p) && p != [] && x.Obj? && forall k :: k in keys ==> k in x.fields
    decreases |p|, 0, |keys|
  {
    if keys == [] then None
    else
      var rest := StoredBy(env, t, n, x, keys[1..], p);
      if rest.Some? then rest
      else if env.snake(keys[0]) == p[0] then Stored(env, t, Extend(n, p[0]), x.fields[keys[0]], p[1..])
      else None
  }

  function Or(a: Option<Value>, b: Value): Value {
    if a.Some? then a.value else b
  }

  /** An update leaves at every such field what `Stored` says. */
  lemma {:induction false} UpdateLeaves(env: Env, t: Table, v: Value, n: Path, optional: bool, x: Value, p: seq<string>)
    requires Leads(env, t, n, p) && Partial(env, t, v, n) && Updated(env, t, v, n, optional, x).Ok?
    ensures Held(Updated(env, t, v, n, optional, x).value, p) == Or(Stored(env, t, n, x, p), Held(v, p))
    decreases |p|, 1, 0
  {
    if p == [] {
      if t[n].kind.ObjectArray? && x.Arr? {
        EmptyOrPanic(env, t, n, optional || t[n].optional, x);
      }
    } else if x.Obj? {
      FieldsLeave(env, t, v, n, optional || t[n].optional, x, SortedKeys(x.fields.Keys), p);
    }
  }

  lemma {:induction false} FieldsLeave(env: Env, t: Table, v: Value, n: Path, optional: bool, x: Value, keys: seq<string>,
                                       p: seq<string>)
    requires Leads(env, t, n, p) && p != [] && Partial(env, t, v, n)
    requires x.Obj? && forall k :: k in keys ==> k in x.fields
    requires UpdatedFields(env, t, v, n, optional, x, keys).Ok?
    ensures Held(UpdatedFields(env, t, v, n, optional, x, keys).value, p) == Or(StoredBy(env, t, n, x, keys, p), Held(v, p))
    decreases |p|, 0, |keys|
  {
    if keys != [] {
      var c := env.snake(keys[0]);
      if Extend(n, c) !in t {
        FieldsLeave(env, t, v, n, optional, x, keys[1..], p);
      } else {
        var y := OneField(env, t, v, n, optional, x, keys);
        var next := Obj(Entries(v)[c := y]);
        FieldsLeave(env, t, next, n, optional, x, keys[1..], p);
        EntryWritten(v, c, y, p[0]);
        if c == p[0] {
          UpdateLeaves(env, t, Child(v, c), Extend(n, c), optional, x.fields[keys[0]], p[1..]);
        }
      }
    }
  }

  lemma EntryWritten(v: Value, c: string, y: Value, d: string)
    ensures Child(Obj(Entries(v)[c := y]), d) == if d == c then y else Child(v, d)
  {
  }

  // ------------------------------------------------ who else writes to a field

  /** The names below `n`, in the order in which an object holds them. */
  function NamesBelow(t: Table, n: Path): seq<string> {
    SortedKeys(ChildNames(t, n))
  }

  function UpTo(names: seq<string>, c: string): (r: seq<string>)
    requires c in names
    ensures forall k :: k in r ==> k in names && k != c
  {
    if names[0] == c then [] else [names[0]] + UpTo(names[1..], c)
  }

  function From(names: seq<string>, c: string): (r: seq<string>)
    requires c in names
    ensures forall k :: k in r ==> k in names
  {
    if names[0] == c then names[1..] else From(names[1..], c)
  }

  lemma {:induction false} UpToAndFrom(names: seq<string>, c: string)
    requires c in names && forall i, j :: 0 <= i < j < |names| ==> names[i] != names[j]
    ensures names == UpTo(names, c) + ([c] + From(names, c))
    ensures forall k :: k in From(names, c) ==> k != c
  {
    assert names == [names[0]] + names[1..];
    if names[0] != c {
      UpToAndFrom(names[1..], c);
    }
  }

  lemma NameIsBelow(env: Env, t: Table, n: Path, p: seq<string>)
    requires Leads(env, t, n, p) && p != []
    ensures p[0] in NamesBelow(t, n)
  {
    InChildNames(t, n, p[0]);
  }

  /** An untouched object has all its children, untouched. */
  lemma UntouchedObject(env: Env, t: Table, n: Path)
    requires IsStatic(t, n)
    ensures var u := Untouched(env, t, n);
            && u.Obj? && u.fields.Keys == ChildNames(t, n)
            && forall c :: c in u.fields ==> Extend(n, c) in t && u.fields[c] == Untouched(env, t, Extend(n, c))
  {
    var u := Untouched(env, t, n);
    forall c | c in u.fields ensures Extend(n, c) in t && u.fields[c] == Untouched(env, t, Extend(n, c)) {
      CompletedChildIs(env, t, Null, n, true, c);
    }
  }

  /** What the unreachable names of a result leave at `p` after the field's own entry
      was written there. */
  ghost function Later(env: Env, t: Table, n: Path, p: seq<string>): Option<Value>
    requires Leads(env, t, n, p)
    decreases |p|
  {
    if p == [] then None
    else
      UntouchedObject(env, t, n);
      NameIsBelow(env, t, n, p);
      Last(Later(env, t, Extend(n, p[0]), p[1..]),
           StoredBy(env, t, n, Untouched(env, t, n), From(NamesBelow(t, n), p[0]), p))
  }

  /** And before. */
  ghost function Earlier(env: Env, t: Table, n: Path, p: seq<string>): Option<Value>
    requires Leads(env, t, n, p)
    decreases |p|
  {
    if p == [] then None
    else
      UntouchedObject(env, t, n);
      NameIsBelow(env, t, n, p);
      Last(StoredBy(env, t, n, Untouched(env, t, n), UpTo(NamesBelow(t, n), p[0]), p),
           Earlier(env, t, Extend(n, p[0]), p[1..]))
  }

  function Last(a: Option<Value>, b: Option<Value>): Option<Value> {
    if b.Some? then b else a
  }

  lemma {:induction false} StoredByBoth(env: Env, t: Table, n: Path, x: Value, a: seq<string>, b: seq<string>,
                                        p: seq<string>)
    requires Leads(env, t, n, p) && p != [] && x.Obj? && (forall k :: k in a || k in b ==> k in x.fields)
    ensures forall k :: k in a + b ==> k in x.fields
    ensures StoredBy(env, t, n, x, a + b, p) == Last(StoredBy(env, t, n, x, a, p), StoredBy(env, t, n, x, b, p))
    decreases |a|
  {
    if a == [] {
      assert a + b == b;
    } else {
      assert (a + b)[1..] == a[1..] + b;
      StoredByBoth(env, t, n, x, a[1..], b, p);
    }
  }

  /** In a result the entries of all other names that are written to `p` are untouched. */
  lemma {:induction false} OthersAreUntouched(env: Env, t: Table, n: Path, w: Value, keys: seq<string>, p: seq<string>)
    requires Leads(env, t, n, p) && p != [] && w.Obj? && Idle(env, t, w, n)
    requires w.fields.Keys == ChildNames(t, n) && forall k :: k in keys ==> k in w.fields && k != p[0]
    ensures Untouched(env, t, n).Obj? && Untouched(env, t, n).fields.Keys == w.fields.Keys
    ensures StoredBy(env, t, n, w, keys, p) == StoredBy(env, t, n, Untouched(env, t, n), keys, p)
    decreases |keys|
  {
    UntouchedObject(env, t, n);
    if keys != [] {
      OthersAreUntouched(env, t, n, w, keys[1..], p);
      var k := keys[0];
      assert k in Untouched(env, t, n).fields;
      if env.snake(k) == p[0] {
        assert !Reachable(env, k);
      }
    }
  }

  /** What writing the entries of a result one after the other leaves at `p`. */
  lemma EntriesLeave(env: Env, t: Table, n: Path, w: Value, optional: bool, p: seq<string>)
    requires Leads(env, t, n, p) && p != [] && Conforms(env, t, w, n, optional) && Idle(env, t, w, n)
    ensures var u := Untouched(env, t, n);
            && w.Obj? && p[0] in w.fields && p[0] in NamesBelow(t, n)
            && u.Obj? && u.fields.Keys == ChildNames(t, n)
            && Stored(env, t, n, w, p) ==
               Last(Last(StoredBy(env, t, n, u, UpTo(NamesBelow(t, n), p[0]), p),
                         Stored(env, t, Extend(n, p[0]), w.fields[p[0]], p[1..])),
                    StoredBy(env, t, n, u, From(NamesBelow(t, n), p[0]), p))
  {
    var c, names := p[0], NamesBelow(t, n);
    NameIsBelow(env, t, n, p);
    UpToAndFrom(names, c);
    KeysAreNames(env, t, n, w, optional);
    var before, after := UpTo(names, c), From(names, c);
    StoredByBoth(env, t, n, w, before, [c] + after, p);
    StoredByBoth(env, t, n, w, [c], after, p);
    OthersAreUntouched(env, t, n, w, before, p);
    OthersAreUntouched(env, t, n, w, after, p);
    OwnEntry(env, t, n, w, p);
  }

  /** What writing a result leaves at `p`: what later names leave, or the field's own
      entry, or what earlier names leave. */
  lemma {:induction false} ResultLeaves(env: Env, t: Table, n: Path, w: Value, optional: bool, p: seq<string>)
    requires Leads(env, t, n, p) && Conforms(env, t, w, n, optional) && Idle(env, t, w, n)
    ensures End(n, p) in t
    ensures Stored(env, t, n, w, p) ==
            Last(Last(Earlier(env, t, n, p), Sticks(env, t[End(n, p)].kind, Held(w, p))), Later(env, t, n, p))
    decreases |p|
  {
    LeadsToEnd(env, t, n, p);
    if p != [] {
      EntriesLeave(env, t, n, w, optional, p);
      ResultLeaves(env, t, Extend(n, p[0]), w.fields[p[0]], optional || t[n].optional, p[1..]);
      var u, names := Untouched(env, t, n), NamesBelow(t, n);
      var m := Extend(n, p[0]);
      LastRegroups(StoredBy(env, t, n, u, UpTo(names, p[0]), p), Earlier(env, t, m, p[1..]),
                   Sticks(env, t[End(n, p)].kind, Held(w, p)), Later(env, t, m, p[1..]),
                   StoredBy(env, t, n, u, From(names, p[0]), p));
    }
  }

  lemma LastRegroups(a: Option<Value>, b: Option<Value>, c: Option<Value>, d: Option<Value>, e: Option<Value>)
    ensures Last(Last(a, Last(Last(b, c), d)), e) == Last(Last(Last(a, b), c), Last(d, e))
  {
  }

  lemma KeysAreNames(env: Env, t: Table, n: Path, w: Value, optional: bool)
    requires IsStatic(t, n) && Conforms(env, t, w, n, optional)
    ensures w.Obj? && w.fields.Keys == ChildNames(t, n) && SortedKeys(w.fields.Keys) == NamesBelow(t, n)
  {
    forall c ensures c in w.fields.Keys <==> c in ChildNames(t, n) {
      InChildNames(t, n, c);
    }
  }

  lemma OwnEntry(env: Env, t: Table, n: Path, w: Value, p: seq<string>)
    requires Leads(env, t, n, p) && p != [] && w.Obj? && p[0] in w.fields
    ensures StoredBy(env, t, n, w, [p[0]], p) == Stored(env, t, Extend(n, p[0]), w.fields[p[0]], p[1..])
  {
    assert [p[0]][1..] == [];
    assert StoredBy(env, t, n, w, [], p) == None;
  }

  // ---------------------------------------------------------- the condition

  /** Every write of an unreachable name of a result succeeds. */
  ghost predicate Taken(env: Env, t: Table, n: Path, optional: bool)
    requires n in t
    decreases Remaining(t, n)
  {
    var inherited := optional || t[n].optional;
    IsStatic(t, n) ==>
      && (forall c :: Extend(n, c) in t && Reachable(env, c) ==> Taken(env, t, Extend(n, c), inherited))
      && (forall a :: Extend(n, a) in t && !Reachable(env, a) ==> IsTaken(env, t, n, inherited, a))
  }

  ghost predicate IsTaken(env: Env, t: Table, n: Path, optional: bool, a: string)
    requires Extend(n, a) in t
  {
    var m := Extend(n, env.snake(a));
    m in t ==> Updated(env, t, Null, m, optional, Untouched(env, t, Extend(n, a))).Ok?
  }

  predicate DefaultFits(kind: Kind) {
    kind.String? && kind.textDefault.Some? ==> |kind.textDefault.value| < TEXT_LIMIT
  }

  /** The schema leaves no choice for the value of the field. */
  ghost predicate OnlyOne(env: Env, t: Table, m: Path, optional: bool)
    requires m in t
  {
    forall x, y :: Conforms(env, t, x, m, optional) && Conforms(env, t, y, m, optional) ==> x == y
  }

  /** No unreachable name writes to the field, or writing there does not matter:
      before the field's own entry when that is never null, or anywhere when there is
      only one value to write. */
  ghost predicate Secure(env: Env, t: Table, p: seq<string>)
    requires Leads(env, t, [], p)
  {
    LeadsToEnd(env, t, [], p);
    var m, optional := End([], p), Inherits(t, [], false, p);
    || OnlyOne(env, t, m, optional)
    || (Later(env, t, [], p).None? && (Earlier(env, t, [], p).None? || !Conforms(env, t, Null, m, optional)))
  }

  /** The default of a field is accepted when it is supplied. Only an optional root
      can be left to its default. */
  ghost predicate DefaultTaken(env: Env, t: Table, p: seq<string>)
    requires Leads(env, t, [], p)
  {
    LeadsToEnd(env, t, [], p);
    p != [] || t[[]].optional ==> DefaultFits(t[End([], p)].kind)
  }

  /** The condition for idempotent conversion. */
  ghost predicate Quiet(env: Env, t: Table)
    requires [] in t
  {
    && Taken(env, t, [], false)
    && forall p :: Leads(env, t, [], p) ==> DefaultTaken(env, t, p) && Secure(env, t, p)
  }

  // --------------------------------------------------- when reconversion succeeds

  lemma AtomSucceeds(env: Env, t: Table, w: Value, n: Path, optional: bool)
    requires n in t && !IsStatic(t, n) && Conforms(env, t, w, n, optional)
    ensures Updated(env, t, Null, n, optional, w).Ok? <==> !TooLongAt(t[n].kind, w)
  {
    if t[n].kind.Children().None? && !t[n].kind.NoneKind? && !TooLongAt(t[n].kind, w) {
      LeafEchoes(env, t, w, n, optional);
    }
  }

  lemma {:induction false} TakenSuffices(env: Env, t: Table, w: Value, n: Path, optional: bool)
    requires n in t && Taken(env, t, n, optional) && Conforms(env, t, w, n, optional) && Idle(env, t, w, n)
    requires !TooLongAt(t[n].kind, w)
    requires forall p :: Leads(env, t, n, p) && p != [] && End(n, p) in t ==> DefaultFits(t[End(n, p)].kind)
    ensures Updated(env, t, Null, n, optional, w).Ok?
    decreases w
  {
    if IsStatic(t, n) {
      var inherited := optional || t[n].optional;
      forall k | k in w.fields ensures EntrySucceeds(env, t, n, inherited, w, k) {
        if Reachable(env, k) {
          var m := Extend(n, k);
          forall p | Leads(env, t, m, p) && End(m, p) in t ensures DefaultFits(t[End(m, p)].kind) {
            assert ([k] + p)[1..] == p;
            assert Leads(env, t, n, [k] + p) && End(n, [k] + p) == End(m, p);
          }
          if !IsStatic(t, m) {
            assert Leads(env, t, m, []) && End(m, []) == m;
          }
          TakenSuffices(env, t, w.fields[k], m, inherited);
        } else {
          assert IsTaken(env, t, n, inherited, k);
        }
      }
      FieldsSucceed(env, t, Null, n, inherited, w, SortedKeys(w.fields.Keys));
    } else {
      AtomSucceeds(env, t, w, n, optional);
    }
  }

  lemma {:induction false} TakenNeeded(env: Env, t: Table, w: Value, n: Path, optional: bool)
    requires n in t && !Taken(env, t, n, optional) && Conforms(env, t, w, n, optional) && Idle(env, t, w, n)
    ensures Updated(env, t, Null, n, optional, w).Err?
    decreases Remaining(t, n)
  {
    var inherited := optional || t[n].optional;
    var keys := SortedKeys(w.fields.Keys);
    FieldsSucceed(env, t, Null, n, inherited, w, keys);
    if c :| Extend(n, c) in t && Reachable(env, c) && !Taken(env, t, Extend(n, c), inherited) {
      TakenNeeded(env, t, w.fields[c], Extend(n, c), inherited);
      assert c in keys && !EntrySucceeds(env, t, n, inherited, w, c);
    } else {
      var a :| Extend(n, a) in t && !Reachable(env, a) && !IsTaken(env, t, n, inherited, a);
      assert a in keys && !EntrySucceeds(env, t, n, inherited, w, a);
    }
  }

  /** A text that only a default can hold is refused wherever it is. */
  lemma {:induction false} LongTextFails(env: Env, t: Table, w: Value, n: Path, optional: bool, p: seq<string>)
    requires Leads(env, t, n, p) && Conforms(env, t, w, n, optional)
    requires End(n, p) in t && TooLongAt(t[End(n, p)].kind, Held(w, p))
    ensures Updated(env, t, Null, n, optional, w).Err?
    decreases |p|
  {
    if p == [] {
      AtomSucceeds(env, t, w, n, optional);
    } else {
      var inherited := optional || t[n].optional;
      var keys := SortedKeys(w.fields.Keys);
      LongTextFails(env, t, w.fields[p[0]], Extend(n, p[0]), inherited, p[1..]);
      FieldsSucceed(env, t, Null, n, inherited, w, keys);
      assert p[0] in keys && !EntrySucceeds(env, t, n, inherited, w, p[0]);
    }
  }
}
