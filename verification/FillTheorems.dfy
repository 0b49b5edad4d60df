/** What filling defaults computes, on the closed trees the validator accepts. */
module FillTheorems {
  import opened Results
  import opened Names
  import opened Schema
  import opened Json
  import opened Template

  function Child(v: Value, c: string): Value {
    if v.Obj? && c in v.fields then v.fields[c] else Null
  }

  function Entries(v: Value): map<string, Value> {
    if v.Obj? then v.fields else map[]
  }

  function ChildNames(t: Table, n: Path): set<string> {
    set m | m in t && Parent(m) == Some(n) :: m[|m| - 1]
  }

  lemma InChildNames(t: Table, n: Path, c: string)
    ensures c in ChildNames(t, n) <==> Extend(n, c) in t
  {
    assert Parent(Extend(n, c)) == Some(n);
    if c in ChildNames(t, n) {
      var m :| m in t && Parent(m) == Some(n) && m[|m| - 1] == c;
      assert m == m[..|m| - 1] + [m[|m| - 1]];
    }
  }

  /** Containers are where the schema expects them. */
  ghost predicate Fits(t: Table, v: Value, n: Path, isAtom: bool)
    requires n in t
    decreases v
  {
    if t[n].kind.ObjectArray? && isAtom then
      v.Arr? ==> forall i :: 0 <= i < |v.items| ==> Fits(t, v.items[i], n, false)
    else if t[n].kind.Children().Some? then
      v.Null? || (v.Obj? && forall c :: c in v.fields && Extend(n, c) in t ==> Fits(t, v.fields[c], Extend(n, c), true))
    else true
  }

  /** Every required leaf has a value or a default; optionality is inherited. */
  ghost predicate Fillable(t: Table, v: Value, n: Path, optional: bool, isAtom: bool)
    requires n in t
    decreases Remaining(t, n), isAtom
  {
    var inherited := optional || t[n].optional;
    if t[n].kind.NoneKind? then true
    else if t[n].kind.ObjectArray? && isAtom then
      v.Arr? ==> forall i :: 0 <= i < |v.items| ==> Fillable(t, v.items[i], n, inherited, false)
    else if t[n].kind.Children().Some? then
      forall c :: Extend(n, c) in t ==> Fillable(t, Child(v, c), Extend(n, c), inherited, true)
    else !v.Null? || HasDefault(t[n].kind) || inherited
  }

  /** The value with every child of the schema present and every null leaf
      defaulted, in no particular order. */
  ghost function Completion(env: Env, t: Table, v: Value, n: Path, isAtom: bool): Value
    requires n in t
    decreases Remaining(t, n), isAtom
  {
    if t[n].kind.NoneKind? then Null
    else if t[n].kind.ObjectArray? && isAtom then
      if v.Null? then Arr([])
      else if v.Arr? then Arr(seq(|v.items|, i requires 0 <= i < |v.items| => Completion(env, t, v.items[i], n, false)))
      else v
    else if t[n].kind.Children().Some? then
      Obj(map c | c in Entries(v).Keys + ChildNames(t, n) :: CompletedChild(env, t, v, n, c))
    else if v.Null? && HasDefault(t[n].kind) then Default(env, t[n].kind).value
    else v
  }

  ghost function CompletedChild(env: Env, t: Table, v: Value, n: Path, c: string): Value
    requires n in t && c in Entries(v).Keys + ChildNames(t, n)
    decreases Remaining(t, n), false, 0
  {
    InChildNames(t, n, c);
    if Extend(n, c) in t then Completion(env, t, Child(v, c), Extend(n, c), true) else Entries(v)[c]
  }

  /** The children listed in a closed tree are the names directly below. */
  lemma ClosedChildren(t: Table, n: Path, c: Path)
    requires ClosedTree(t) && n in t && t[n].kind.Children().Some?
    ensures c in t[n].kind.Children().value <==> c in t && Parent(c) == Some(n)
  {
    var listed := set c' | c' in t[n].kind.Children().value;
    assert listed == DirectChildren(t.Keys, n);
    assert c in listed <==> c in t[n].kind.Children().value;
  }

  /** On a closed tree no field lists the root, so filling terminates. */
  lemma ClosedTreeDescends(t: Table)
    requires ClosedTree(t)
    ensures Descends(t)
  {
    forall n | n in t && t[n].kind.Children().Some? ensures [] !in t[n].kind.Children().value {
      ClosedChildren(t, n, []);
    }
  }

  /** The names that a list of children adds to an object. */
  function LastNames(children: seq<Path>): set<string>
    requires [] !in children
  {
    set c | c in children :: c[|c| - 1]
  }

  /** Each listed child lies directly below `n`. */
  predicate ListedBelow(t: Table, n: Path, children: seq<Path>) {
    forall c :: c in children ==> c != [] && Extend(n, c[|c| - 1]) == c && c in t
  }

  lemma ClosedListedBelow(t: Table, n: Path)
    requires ClosedTree(t) && n in t && t[n].kind.Children().Some?
    ensures ListedBelow(t, n, t[n].kind.Children().value)
    ensures LastNames(t[n].kind.Children().value) == ChildNames(t, n)
  {
    var children := t[n].kind.Children().value;
    forall c | c in children ensures c != [] && Extend(n, c[|c| - 1]) == c && c in t {
      ClosedChildren(t, n, c);
      assert c == c[..|c| - 1] + [c[|c| - 1]];
    }
    forall c ensures c in LastNames(children) <==> c in ChildNames(t, n) {
      InChildNames(t, n, c);
      ClosedChildren(t, n, Extend(n, c));
    }
  }

  /** The fields named in the children lists are exactly those directly below. */
  ghost predicate WellListed(t: Table, n: Path)
    requires Descends(t)
  {
    n in t && t[n].kind.Children().Some? ==>
      var children := t[n].kind.Children().value;
      ListedBelow(t, n, children) && LastNames(children) == ChildNames(t, n)
  }

  ghost predicate Wired(t: Table) {
    Descends(t) && forall n {:trigger WellListed(t, n)} :: WellListed(t, n)
  }

  /** What filling needs of the validator's closed trees. */
  lemma ClosedTreeWired(t: Table)
    requires ClosedTree(t)
    ensures Wired(t)
  {
    ClosedTreeDescends(t);
    forall n ensures WellListed(t, n) {
      if n in t && t[n].kind.Children().Some? {
        ClosedListedBelow(t, n);
      }
    }
  }

  /** The children in `done` are completed, the others are as they were. */
  ghost predicate HalfDone(env: Env, t: Table, before: Value, v: Value, n: Path, done: set<string>)
    requires n in t
  {
    && v.Obj?
    && (forall c :: c in done ==> Extend(n, c) in t)
    && (forall c :: c in v.fields <==> c in Entries(before) || c in done)
    && (forall c :: c in v.fields ==>
          v.fields[c] == if c in done then Completion(env, t, Child(before, c), Extend(n, c), true) else Entries(before)[c])
  }

  ghost predicate FitsBelow(t: Table, v: Value, n: Path) {
    forall c :: Extend(n, c) in t ==> Fits(t, Child(v, c), Extend(n, c), true)
  }

  ghost predicate FillableBelow(t: Table, v: Value, n: Path, optional: bool, names: set<string>) {
    forall c :: c in names && Extend(n, c) in t ==> Fillable(t, Child(v, c), Extend(n, c), optional, true)
  }

  lemma CompletedChildIs(env: Env, t: Table, v: Value, n: Path, isAtom: bool, c: string)
    requires n in t && t[n].kind.Children().Some? && !(t[n].kind.ObjectArray? && isAtom)
    ensures Extend(n, c) in t ==>
              Child(Completion(env, t, v, n, isAtom), c) == Completion(env, t, Child(v, c), Extend(n, c), true)
    ensures Extend(n, c) !in t ==> Child(Completion(env, t, v, n, isAtom), c) == Child(v, c)
    ensures c in Completion(env, t, v, n, isAtom).fields <==> c in Entries(v) || Extend(n, c) in t
  {
    InChildNames(t, n, c);
  }

  /** A completion is complete: completing it again, at any later time, changes
      nothing, and it needs nothing more. */
  lemma {:induction false} CompletionStable(env: Env, later: Env, t: Table, v: Value, n: Path, optional: bool,
                                            isAtom: bool)
    requires n in t && Fits(t, v, n, isAtom)
    ensures var w := Completion(env, t, v, n, isAtom);
            && Fits(t, w, n, isAtom)
            && Completion(later, t, w, n, isAtom) == w
            && (Fillable(t, v, n, optional, isAtom) ==> Fillable(t, w, n, optional, isAtom))
    decreases Remaining(t, n), isAtom
  {
    var w := Completion(env, t, v, n, isAtom);
    var inherited := optional || t[n].optional;
    if t[n].kind.ObjectArray? && isAtom {
      if v.Arr? {
        forall i | 0 <= i < |v.items|
          ensures Fits(t, w.items[i], n, false)
          ensures Completion(later, t, w.items[i], n, false) == w.items[i]
          ensures Fillable(t, v.items[i], n, inherited, false) ==> Fillable(t, w.items[i], n, inherited, false)
        {
          CompletionStable(env, later, t, v.items[i], n, inherited, false);
        }
        assert Completion(later, t, w, n, isAtom).items == w.items;
      }
    } else if t[n].kind.Children().Some? {
      forall c | Extend(n, c) in t
        ensures Fits(t, Child(w, c), Extend(n, c), true)
        ensures Completion(later, t, Child(w, c), Extend(n, c), true) == Child(w, c)
        ensures Fillable(t, Child(v, c), Extend(n, c), inherited, true) ==> Fillable(t, Child(w, c), Extend(n, c), inherited, true)
      {
        CompletedChildIs(env, t, v, n, isAtom, c);
        NullFits(t, Extend(n, c));
        CompletionStable(env, later, t, Child(v, c), Extend(n, c), inherited, true);
      }
      SameObject(later, t, w, n, isAtom);
    }
  }

  lemma NullFits(t: Table, n: Path)
    requires n in t
    ensures Fits(t, Null, n, true) && Fits(t, Null, n, false)
  {
  }

  /** An object whose children are complete, and all there, is complete. */
  lemma SameObject(env: Env, t: Table, w: Value, n: Path, isAtom: bool)
    requires n in t && t[n].kind.Children().Some? && !(t[n].kind.ObjectArray? && isAtom)
    requires w.Obj? && forall c :: Extend(n, c) in t ==> c in w.fields
    requires forall c :: Extend(n, c) in t ==> Completion(env, t, Child(w, c), Extend(n, c), true) == Child(w, c)
    ensures Completion(env, t, w, n, isAtom) == w
  {
    var again := Completion(env, t, w, n, isAtom);
    forall c ensures c in again.fields <==> c in w.fields
             ensures c in w.fields ==> Child(again, c) == w.fields[c] {
      CompletedChildIs(env, t, w, n, isAtom, c);
    }
    assert forall c :: c in again.fields ==> again.fields[c] == Child(again, c);
    assert again.fields == w.fields;
  }

  /** Filling refines completion: on a closed tree and fitting containers it
      yields the completion when every required leaf has a value or a default,
      and otherwise reports a missing value; nothing else can go wrong. */
  lemma FillRefinesCompletion(env: Env, t: Table, v: Value, n: Path, optional: bool, isAtom: bool)
    requires ClosedTree(t) && n in t && Fits(t, v, n, isAtom)
    ensures Descends(t)
    ensures Filled(env, t, v, n, optional, isAtom) ==
            if Fillable(t, v, n, optional, isAtom) then Ok(Completion(env, t, v, n, isAtom)) else Err(Missing)
  {
    ClosedTreeWired(t);
    FillCompletes(env, t, v, n, optional, isAtom);
  }

  lemma {:induction false} FillCompletes(env: Env, t: Table, v: Value, n: Path, optional: bool, isAtom: bool)
    requires Wired(t) && n in t && Fits(t, v, n, isAtom)
    ensures Filled(env, t, v, n, optional, isAtom) ==
            if Fillable(t, v, n, optional, isAtom) then Ok(Completion(env, t, v, n, isAtom)) else Err(Missing)
    decreases Remaining(t, n), if isAtom then 3 else 1, 0
  {
    var kind := t[n].kind;
    if kind.ObjectArray? && isAtom {
      if v.Arr? {
        ItemsComplete(env, t, v, v, n, optional || t[n].optional, 0);
      }
    } else if kind.Children().Some? {
      ObjectCompletes(env, t, v, n, optional || t[n].optional, isAtom);
    }
  }

  lemma {:induction false} ObjectCompletes(env: Env, t: Table, v: Value, n: Path, optional: bool, isAtom: bool)
    requires Wired(t) && n in t && Fits(t, v, n, isAtom)
    requires t[n].kind.Children().Some? && !(t[n].kind.ObjectArray? && isAtom)
    requires optional == (optional || t[n].optional)
    ensures FilledFields(env, t, if v.Null? then Obj(map[]) else v, n, optional, t[n].kind.Children().value) ==
            if Fillable(t, v, n, optional, isAtom) then Ok(Completion(env, t, v, n, isAtom)) else Err(Missing)
    decreases Remaining(t, n), 0, 2, 0
  {
    var open := Obj(Entries(v));
    var children := t[n].kind.Children().value;
    assert WellListed(t, n);
    FitsChildren(t, v, n, isAtom);
    FieldsComplete(env, t, open, open, n, optional, children, {}, ChildNames(t, n));
    LoopedIsDone(env, t, v, FilledFields(env, t, open, n, optional, children), n, optional, isAtom);
  }

  lemma LoopedIsDone(env: Env, t: Table, v: Value, r: Result<Value, Error>, n: Path, optional: bool, isAtom: bool)
    requires n in t && t[n].kind.Children().Some? && !(t[n].kind.ObjectArray? && isAtom)
    requires optional == (optional || t[n].optional) && (v.Null? || v.Obj?)
    requires Looped(env, t, Obj(Entries(v)), r, n, optional, ChildNames(t, n))
    ensures r == if Fillable(t, v, n, optional, isAtom) then Ok(Completion(env, t, v, n, isAtom)) else Err(Missing)
  {
    NullIsEmpty(t, v, n, optional, isAtom);
    if Fillable(t, v, n, optional, isAtom) {
      HalfDoneIsDone(env, t, v, r.value, n, isAtom);
    }
  }

  lemma FitsChildren(t: Table, v: Value, n: Path, isAtom: bool)
    requires n in t && t[n].kind.Children().Some? && !(t[n].kind.ObjectArray? && isAtom) && Fits(t, v, n, isAtom)
    ensures v.Null? || v.Obj?
    ensures FitsBelow(t, v, n) && FitsBelow(t, Obj(Entries(v)), n)
  {
    forall c | Extend(n, c) in t ensures Fits(t, Child(v, c), Extend(n, c), true) {
      NullFits(t, Extend(n, c));
    }
    assert forall c :: Child(Obj(Entries(v)), c) == Child(v, c);
  }

  /** A null and an empty object have the same children. */
  lemma NullIsEmpty(t: Table, v: Value, n: Path, optional: bool, isAtom: bool)
    requires n in t && t[n].kind.Children().Some? && !(t[n].kind.ObjectArray? && isAtom)
    requires optional == (optional || t[n].optional) && (v.Null? || v.Obj?)
    ensures Fillable(t, v, n, optional, isAtom) <==>
            FillableBelow(t, Obj(Entries(v)), n, optional, ChildNames(t, n))
  {
    forall c ensures Child(Obj(Entries(v)), c) == Child(v, c) && (c in ChildNames(t, n) <==> Extend(n, c) in t) {
      InChildNames(t, n, c);
    }
  }

  lemma HalfDoneIsDone(env: Env, t: Table, v: Value, w: Value, n: Path, isAtom: bool)
    requires n in t && t[n].kind.Children().Some? && !(t[n].kind.ObjectArray? && isAtom)
    requires v.Null? || v.Obj?
    requires HalfDone(env, t, Obj(Entries(v)), w, n, ChildNames(t, n))
    ensures w == Completion(env, t, v, n, isAtom)
  {
    var whole := Completion(env, t, v, n, isAtom);
    forall c ensures c in w.fields <==> c in whole.fields
             ensures c in w.fields ==> w.fields[c] == whole.fields[c] {
      InChildNames(t, n, c);
      CompletedChildIs(env, t, v, n, isAtom, c);
      assert Child(Obj(Entries(v)), c) == Child(v, c);
    }
    assert w.fields == whole.fields;
  }

  /** The loop over the children has come to `v`; `children` are left to do. */
  ghost predicate Looping(env: Env, t: Table, before: Value, v: Value, n: Path, optional: bool, children: seq<Path>,
                          done: set<string>)
  {
    && Wired(t) && n in t && before.Obj?
    && ListedBelow(t, n, children) && FitsBelow(t, before, n)
    && HalfDone(env, t, before, v, n, done) && FillableBelow(t, before, n, optional, done)
  }

  /** How the loop ends: all are completed, unless one lacks a required value. */
  ghost predicate Looped(env: Env, t: Table, before: Value, r: Result<Value, Error>, n: Path, optional: bool, all: set<string>) {
    n in t &&
    if FillableBelow(t, before, n, optional, all)
    then r.Ok? && HalfDone(env, t, before, r.value, n, all)
    else r == Err(Missing)
  }

  lemma {:induction false} FieldsComplete(env: Env, t: Table, before: Value, v: Value, n: Path, optional: bool,
                                          children: seq<Path>, done: set<string>, all: set<string>)
    requires Looping(env, t, before, v, n, optional, children, done)
    requires all == done + LastNames(children)
    ensures Looped(env, t, before, FilledFields(env, t, v, n, optional, children), n, optional, all)
    decreases Remaining(t, n), 0, 1, |children|
  {
    if children == [] {
      assert all == done;
    } else {
      var c := children[0][|children[0]| - 1];
      LastNamesSplit(children, done);
      var fine, w := FieldsStep(env, t, before, v, n, optional, children, done);
      if fine {
        FieldsComplete(env, t, before, w, n, optional, children[1..], done + {c}, all);
      }
    }
  }

  lemma LastNamesSplit(children: seq<Path>, done: set<string>)
    requires children != [] && [] !in children
    ensures var c := children[0][|children[0]| - 1];
            done + LastNames(children) == done + {c} + LastNames(children[1..])
    ensures forall c :: c in children[1..] ==> c in children
  {
    assert children == [children[0]] + children[1..];
  }

  /** The loop over the children continues after the first one was filled. */
  lemma {:induction false} FieldsStep(env: Env, t: Table, before: Value, v: Value, n: Path, optional: bool,
                                      children: seq<Path>, done: set<string>) returns (fine: bool, w: Value)
    requires Looping(env, t, before, v, n, optional, children, done) && children != []
    ensures !fine ==> !FillableBelow(t, before, n, optional, done + LastNames(children))
    ensures !fine ==> FilledFields(env, t, v, n, optional, children) == Err(Missing)
    ensures fine ==> FilledFields(env, t, v, n, optional, children) == FilledFields(env, t, w, n, optional, children[1..])
    ensures fine ==> Looping(env, t, before, w, n, optional, children[1..], done + {children[0][|children[0]| - 1]})
    decreases Remaining(t, n), 0, 0, 1
  {
    var c := children[0][|children[0]| - 1];
    assert children[0] in children;
    ChildCompletes(env, t, before, v, n, optional, c, done);
    var x := Completion(env, t, Child(before, c), Extend(n, c), true);
    fine := Fillable(t, Child(before, c), Extend(n, c), optional, true);
    w := Set(Enter(t, v, n, Key(c)).node, Key(c), x);
    FilledFirst(env, t, v, n, optional, children, if fine then Ok(x) else Err(Missing));
    if fine {
      LoopingNext(env, t, before, v, w, n, optional, children, done);
    } else {
      assert c in done + LastNames(children);
    }
  }

  lemma LoopingNext(env: Env, t: Table, before: Value, v: Value, w: Value, n: Path, optional: bool,
                    children: seq<Path>, done: set<string>)
    requires Looping(env, t, before, v, n, optional, children, done) && children != []
    requires var c := children[0][|children[0]| - 1];
             && Fillable(t, Child(before, c), Extend(n, c), optional, true)
             && HalfDone(env, t, before, w, n, done + {c})
    ensures Looping(env, t, before, w, n, optional, children[1..], done + {children[0][|children[0]| - 1]})
  {
    LastNamesSplit(children, done);
  }

  lemma FilledFirst(env: Env, t: Table, v: Value, n: Path, optional: bool, children: seq<Path>,
                    first: Result<Value, Error>)
    requires Descends(t) && n in t && children != [] && [] !in children
    requires var inside := Enter(t, v, n, ChildKey(children[0]));
             inside.Inside? && first == Filled(env, t, At(inside.node, ChildKey(children[0])), inside.base, optional, true)
    ensures first.Err? ==> FilledFields(env, t, v, n, optional, children) == Err(first.error)
    ensures first.Ok? ==>
              var next := Set(Enter(t, v, n, ChildKey(children[0])).node, ChildKey(children[0]), first.value);
              FilledFields(env, t, v, n, optional, children) == FilledFields(env, t, next, n, optional, children[1..])
  {
  }

  /** One round of the loop over the children. */
  lemma {:induction false} ChildCompletes(env: Env, t: Table, before: Value, v: Value, n: Path, optional: bool,
                                          c: string, done: set<string>)
    requires Wired(t) && n in t && before.Obj? && Extend(n, c) in t
    requires FitsBelow(t, before, n)
    requires HalfDone(env, t, before, v, n, done) && FillableBelow(t, before, n, optional, done)
    ensures var inside := Enter(t, v, n, Key(c));
            && inside.Inside? && inside.base == Extend(n, c)
            && Filled(env, t, At(inside.node, Key(c)), inside.base, optional, true) ==
               (if Fillable(t, Child(before, c), Extend(n, c), optional, true)
                then Ok(Completion(env, t, Child(before, c), Extend(n, c), true)) else Err(Missing))
            && HalfDone(env, t, before, Set(inside.node, Key(c), Completion(env, t, Child(before, c), Extend(n, c), true)), n, done + {c})
    decreases Remaining(t, n), 0, 0, 0
  {
    var x := Child(before, c);
    if c in done {
      CompletionStable(env, env, t, x, Extend(n, c), optional, true);
      FillCompletes(env, t, Child(v, c), Extend(n, c), optional, true);
    } else {
      FillCompletes(env, t, x, Extend(n, c), optional, true);
    }
  }

  lemma {:induction false} ItemsComplete(env: Env, t: Table, before: Value, v: Value, n: Path, optional: bool, i: nat)
    requires Wired(t) && n in t
    requires before.Arr? && v.Arr? && |v.items| == |before.items| && i <= |v.items|
    requires forall j :: 0 <= j < |v.items| ==> Fits(t, before.items[j], n, false)
    requires forall j :: 0 <= j < i ==> v.items[j] == Completion(env, t, before.items[j], n, false)
    requires forall j :: i <= j < |v.items| ==> v.items[j] == before.items[j]
    ensures FilledItems(env, t, v, n, optional, i) ==
            if forall j :: i <= j < |v.items| ==> Fillable(t, before.items[j], n, optional, false)
            then Ok(Arr(seq(|v.items|, j requires 0 <= j < |v.items| => Completion(env, t, before.items[j], n, false))))
            else Err(Missing)
    decreases Remaining(t, n), 2, |v.items| - i
  {
    if i == |v.items| {
      assert v.items == seq(|v.items|, j requires 0 <= j < |v.items| => Completion(env, t, before.items[j], n, false));
    } else {
      FillCompletes(env, t, before.items[i], n, optional, false);
      if Fillable(t, before.items[i], n, optional, false) {
        ItemsComplete(env, t, before, Arr(v.items[i := Completion(env, t, before.items[i], n, false)]), n, optional, i + 1);
      }
    }
  }

  /** Filling a filled value, at any later time, succeeds and changes nothing. */
  lemma FillIdempotent(env: Env, later: Env, t: Table, v: Value, n: Path, optional: bool, isAtom: bool)
    requires ClosedTree(t) && n in t && Fits(t, v, n, isAtom) && Descends(t)
    requires Filled(env, t, v, n, optional, isAtom).Ok?
    ensures var w := Filled(env, t, v, n, optional, isAtom).value;
            Filled(later, t, w, n, optional, isAtom) == Ok(w)
  {
    FillRefinesCompletion(env, t, v, n, optional, isAtom);
    CompletionStable(env, later, t, v, n, optional, isAtom);
    FillRefinesCompletion(later, t, Completion(env, t, v, n, isAtom), n, optional, isAtom);
  }

  /** Every object has all its children, and every leaf that is required, or has
      a default, has a value. */
  ghost predicate Supplied(t: Table, w: Value, n: Path, optional: bool, isAtom: bool)
    requires n in t
    decreases Remaining(t, n), isAtom
  {
    var inherited := optional || t[n].optional;
    if t[n].kind.NoneKind? then w.Null?
    else if t[n].kind.ObjectArray? && isAtom then
      !w.Null? && (w.Arr? ==> forall i :: 0 <= i < |w.items| ==> Supplied(t, w.items[i], n, inherited, false))
    else if t[n].kind.Children().Some? then
      w.Obj? && forall c :: Extend(n, c) in t ==> c in w.fields && Supplied(t, w.fields[c], Extend(n, c), inherited, true)
    else w.Null? ==> inherited && !HasDefault(t[n].kind)
  }

  lemma {:induction false} CompletionSupplies(env: Env, t: Table, v: Value, n: Path, optional: bool, isAtom: bool)
    requires n in t && Fits(t, v, n, isAtom) && Fillable(t, v, n, optional, isAtom)
    ensures Supplied(t, Completion(env, t, v, n, isAtom), n, optional, isAtom)
    decreases Remaining(t, n), isAtom
  {
    var w := Completion(env, t, v, n, isAtom);
    var inherited := optional || t[n].optional;
    if t[n].kind.ObjectArray? && isAtom {
      if v.Arr? {
        forall i | 0 <= i < |v.items| ensures Supplied(t, w.items[i], n, inherited, false) {
          CompletionSupplies(env, t, v.items[i], n, inherited, false);
        }
      }
    } else if t[n].kind.Children().Some? {
      forall c | Extend(n, c) in t
        ensures c in w.fields && Supplied(t, w.fields[c], Extend(n, c), inherited, true)
      {
        CompletedChildIs(env, t, v, n, isAtom, c);
        NullFits(t, Extend(n, c));
        CompletionSupplies(env, t, Child(v, c), Extend(n, c), inherited, true);
      }
    }
  }

  /** A successful filling leaves no required leaf null. */
  lemma FillSupplies(env: Env, t: Table, v: Value, n: Path, optional: bool, isAtom: bool)
    requires ClosedTree(t) && n in t && Fits(t, v, n, isAtom) && Descends(t)
    requires Filled(env, t, v, n, optional, isAtom).Ok?
    ensures Supplied(t, Filled(env, t, v, n, optional, isAtom).value, n, optional, isAtom)
  {
    FillRefinesCompletion(env, t, v, n, optional, isAtom);
    CompletionSupplies(env, t, v, n, optional, isAtom);
  }

  /** No name along the cursor is of kind `None`, whose values are always erased. */
  predicate Kept(t: Table, n: Path, p: Cursor)
    decreases |p|
  {
    && (n in t ==> !t[n].kind.NoneKind?)
    && (p == [] || Kept(t, match p[0] case Key(c) => Extend(n, c) case Index(_) => n, p[1..]))
  }

  predicate IsScalar(v: Value) {
    !v.Null? && !v.Obj? && !v.Arr?
  }

  /** Completion changes no value that is there, wherever it is. */
  lemma {:induction false} CompletionKeeps(env: Env, t: Table, v: Value, n: Path, isAtom: bool, p: Cursor)
    requires n in t && Fits(t, v, n, isAtom)
    requires Reaches(v, p) && IsScalar(Get(v, p)) && Kept(t, n, p)
    ensures Reaches(Completion(env, t, v, n, isAtom), p)
    ensures Get(Completion(env, t, v, n, isAtom), p) == Get(v, p)
    decreases |p|
  {
    if p != [] {
      if t[n].kind.ObjectArray? && isAtom {
        if v.Arr? {
          CompletionKeeps(env, t, v.items[p[0].index], n, false, p[1..]);
        }
      } else if t[n].kind.Children().Some? {
        var c := p[0].key;
        CompletedChildIs(env, t, v, n, isAtom, c);
        if Extend(n, c) in t {
          CompletionKeeps(env, t, Child(v, c), Extend(n, c), true, p[1..]);
        }
      }
    }
  }

  /** Filling never changes a supplied value. */
  lemma FillKeeps(env: Env, t: Table, v: Value, n: Path, optional: bool, isAtom: bool, p: Cursor)
    requires ClosedTree(t) && n in t && Fits(t, v, n, isAtom) && Descends(t)
    requires Filled(env, t, v, n, optional, isAtom).Ok?
    requires Reaches(v, p) && IsScalar(Get(v, p)) && Kept(t, n, p)
    ensures var w := Filled(env, t, v, n, optional, isAtom).value;
            Reaches(w, p) && Get(w, p) == Get(v, p)
  {
    FillRefinesCompletion(env, t, v, n, optional, isAtom);
    CompletionKeeps(env, t, v, n, isAtom, p);
  }
}
