/** Conversion is idempotent exactly on the quiet schemas. */
module IdempotenceTheorems {
  import opened Results
  import opened Names
  import opened Schema
  import opened Json
  import opened Template
  import opened FillTheorems
  import opened ConformTheorems
  import opened ConversionRange
  import opened Idempotence

  // -------------------------------------------------------------- values that stick

  /** A value that conforms whatever is optional, and that filling leaves alone. */
  ghost predicate Firm(env: Env, t: Table, m: Path, z: Value)
    requires m in t
  {
    && (forall optional :: Conforms(env, t, z, m, optional))
    && Completion(env, t, z, m, true) == z
    && (z.Null? ==> t[m].kind.NoneKind?)
    && !t[m].kind.ObjectArray?
  }

  lemma SticksFirmly(env: Env, t: Table, m: Path, x: Value)
    requires Wired(t) && DynamicListNothing(t) && m in t && !IsStatic(t, m) && Sticks(env, t[m].kind, x).Some?
    ensures Firm(env, t, m, Sticks(env, t[m].kind, x).value)
  {
    CheckAccepts(env, t[m].kind, x);
    if t[m].kind.Object? {
      DynamicEchoes(env, t, x, m, false);
    }
  }

  lemma {:induction false} StoredFirmly(env: Env, t: Table, n: Path, x: Value, p: seq<string>)
    requires Wired(t) && DynamicListNothing(t) && Leads(env, t, n, p) && Stored(env, t, n, x, p).Some?
    ensures End(n, p) in t && Firm(env, t, End(n, p), Stored(env, t, n, x, p).value)
    decreases |p|, 1, 0
  {
    if p == [] {
      SticksFirmly(env, t, n, x);
    } else {
      StoredByFirmly(env, t, n, x, SortedKeys(x.fields.Keys), p);
    }
  }

  lemma {:induction false} StoredByFirmly(env: Env, t: Table, n: Path, x: Value, keys: seq<string>, p: seq<string>)
    requires Wired(t) && DynamicListNothing(t) && Leads(env, t, n, p) && p != []
    requires x.Obj? && (forall k :: k in keys ==> k in x.fields) && StoredBy(env, t, n, x, keys, p).Some?
    ensures End(n, p) in t && Firm(env, t, End(n, p), StoredBy(env, t, n, x, keys, p).value)
    decreases |p|, 0, |keys|
  {
    if StoredBy(env, t, n, x, keys[1..], p).Some? {
      StoredByFirmly(env, t, n, x, keys[1..], p);
    } else {
      StoredFirmly(env, t, Extend(n, p[0]), x.fields[keys[0]], p[1..]);
    }
  }

  lemma {:induction false} OthersFirm(env: Env, t: Table, n: Path, p: seq<string>)
    requires Wired(t) && DynamicListNothing(t) && Leads(env, t, n, p)
    ensures End(n, p) in t
    ensures Later(env, t, n, p).Some? ==> Firm(env, t, End(n, p), Later(env, t, n, p).value)
    ensures Earlier(env, t, n, p).Some? ==> Firm(env, t, End(n, p), Earlier(env, t, n, p).value)
    decreases |p|
  {
    LeadsToEnd(env, t, n, p);
    if p != [] {
      OthersFirm(env, t, Extend(n, p[0]), p[1..]);
      UntouchedObject(env, t, n);
      NameIsBelow(env, t, n, p);
      var u, names := Untouched(env, t, n), NamesBelow(t, n);
      if StoredBy(env, t, n, u, From(names, p[0]), p).Some? {
        StoredByFirmly(env, t, n, u, From(names, p[0]), p);
      }
      if StoredBy(env, t, n, u, UpTo(names, p[0]), p).Some? {
        StoredByFirmly(env, t, n, u, UpTo(names, p[0]), p);
      }
    }
  }

  /** A conforming value of a field that is written as a whole sticks, except a null
      leaf and the empty array. */
  lemma ConformingSticks(env: Env, t: Table, m: Path, y: Value, optional: bool)
    requires m in t && !IsStatic(t, m) && Conforms(env, t, y, m, optional) && !TooLongAt(t[m].kind, y)
    ensures Sticks(env, t[m].kind, y) ==
            if t[m].kind.ObjectArray? || (y.Null? && !t[m].kind.NoneKind?) then None else Some(y)
  {
    if t[m].kind.StringArray? && y.Arr? {
      AllStrings(y.items);
    }
  }

  // ------------------------------------------------------------------- one field

  /** What filling makes of the field at `p` when a result that holds `y` there is
      converted again. */
  ghost function Again(env: Env, t: Table, p: seq<string>, y: Value): Value
    requires Leads(env, t, [], p)
  {
    LeadsToEnd(env, t, [], p);
    var m := End([], p);
    Completion(env, t, Or(Last(Last(Earlier(env, t, [], p), Sticks(env, t[m].kind, y)), Later(env, t, [], p)), Null), m, true)
  }

  /** A secure field keeps every value. */
  lemma SecureKeeps(env: Env, t: Table, p: seq<string>, y: Value)
    requires Wired(t) && DynamicListNothing(t) && Leads(env, t, [], p) && Secure(env, t, p)
    requires End([], p) in t && Conforms(env, t, y, End([], p), Inherits(t, [], false, p)) && !TooLongAt(t[End([], p)].kind, y)
    ensures Again(env, t, p, y) == y
  {
    var m, optional := End([], p), Inherits(t, [], false, p);
    LeadsToEnd(env, t, [], p);
    OthersFirm(env, t, [], p);
    ConformingSticks(env, t, m, y, optional);
    if Sticks(env, t[m].kind, y).Some? {
      SticksFirmly(env, t, m, y);
    }
    ValueKept(env, t, m, optional, y, Earlier(env, t, [], p), Later(env, t, [], p));
  }

  ghost predicate FirmIfAny(env: Env, t: Table, m: Path, z: Option<Value>)
    requires m in t
  {
    z.Some? ==> Firm(env, t, m, z.value)
  }

  lemma ValueKept(env: Env, t: Table, m: Path, optional: bool, y: Value, earlier: Option<Value>, later: Option<Value>)
    requires m in t && !IsStatic(t, m) && Conforms(env, t, y, m, optional) && !TooLongAt(t[m].kind, y)
    requires FirmIfAny(env, t, m, earlier) && FirmIfAny(env, t, m, later) && FirmIfAny(env, t, m, Sticks(env, t[m].kind, y))
    requires OnlyOne(env, t, m, optional) || (later.None? && (earlier.None? || !Conforms(env, t, Null, m, optional)))
    ensures Completion(env, t, Or(Last(Last(earlier, Sticks(env, t[m].kind, y)), later), Null), m, true) == y
  {
    ConformingSticks(env, t, m, y, optional);
    assert earlier.Some? ==> Conforms(env, t, earlier.value, m, optional);
    assert later.Some? ==> Conforms(env, t, later.value, m, optional);
  }

  /** A field that is not secure loses some value. */
  lemma InsecureLoses(env: Env, t: Table, p: seq<string>) returns (y: Value)
    requires Wired(t) && DynamicListNothing(t) && Leads(env, t, [], p) && !Secure(env, t, p)
    ensures End([], p) in t && Conforms(env, t, y, End([], p), Inherits(t, [], false, p))
    ensures TooLongAt(t[End([], p)].kind, y) || Again(env, t, p, y) != y
  {
    var m, optional := End([], p), Inherits(t, [], false, p);
    LeadsToEnd(env, t, [], p);
    OthersFirm(env, t, [], p);
    var a, b :| Conforms(env, t, a, m, optional) && Conforms(env, t, b, m, optional) && a != b;
    var later := Later(env, t, [], p);
    if later.Some? {
      y := if a != later.value then a else b;
    } else {
      y := Null;
      ConformingSticks(env, t, m, y, optional);
    }
  }

  // --------------------------------------------------------------- all the fields

  /** Two results that agree on all fields that are written as a whole are the same. */
  lemma {:induction false} SameWhereHeld(env: Env, t: Table, w: Value, x: Value, n: Path, optional: bool)
    requires n in t && Conforms(env, t, w, n, optional) && Conforms(env, t, x, n, optional)
    requires Idle(env, t, w, n) && Idle(env, t, x, n)
    requires forall p :: Leads(env, t, n, p) ==> Held(w, p) == Held(x, p)
    ensures w == x
    decreases w
  {
    if IsStatic(t, n) {
      forall c | c in w.fields ensures c in x.fields && w.fields[c] == x.fields[c] {
        if Reachable(env, c) {
          var m := Extend(n, c);
          forall p | Leads(env, t, m, p) ensures Held(w.fields[c], p) == Held(x.fields[c], p) {
            assert ([c] + p)[1..] == p;
            assert Leads(env, t, n, [c] + p);
            assert Held(w, [c] + p) == Held(Child(w, c), p) && Held(x, [c] + p) == Held(Child(x, c), p);
          }
          SameWhereHeld(env, t, w.fields[c], x.fields[c], m, optional || t[n].optional);
        }
      }
      assert w.fields == x.fields;
    } else {
      assert Leads(env, t, n, []) && Held(w, []) == w && Held(x, []) == x;
    }
  }

  lemma {:induction false} HeldCompletion(env: Env, t: Table, v: Value, n: Path, p: seq<string>)
    requires Leads(env, t, n, p)
    ensures End(n, p) in t
    ensures Held(Completion(env, t, v, n, true), p) == Completion(env, t, Held(v, p), End(n, p), true)
    decreases |p|
  {
    if p != [] {
      CompletedChildIs(env, t, v, n, true, p[0]);
      HeldCompletion(env, t, Child(v, p[0]), Extend(n, p[0]), p[1..]);
    }
  }

  lemma {:induction false} HeldConforms(env: Env, t: Table, w: Value, n: Path, optional: bool, p: seq<string>)
    requires Leads(env, t, n, p) && Conforms(env, t, w, n, optional)
    ensures End(n, p) in t && Conforms(env, t, Held(w, p), End(n, p), Inherits(t, n, optional, p))
    decreases |p|
  {
    if p != [] {
      HeldConforms(env, t, w.fields[p[0]], Extend(n, p[0]), optional || t[n].optional, p[1..]);
    }
  }

  /** Every field that is null may be. */
  ghost predicate NullsFillable(env: Env, t: Table, u: Value, n: Path, optional: bool) {
    forall p :: Leads(env, t, n, p) && Held(u, p).Null? && End(n, p) in t ==>
                  Fillable(t, Null, End(n, p), Inherits(t, n, optional, p), true)
  }

  lemma NullsBelow(env: Env, t: Table, u: Value, n: Path, optional: bool, c: string)
    requires IsStatic(t, n) && Extend(n, c) in t && Reachable(env, c) && NullsFillable(env, t, u, n, optional)
    ensures NullsFillable(env, t, Child(u, c), Extend(n, c), optional || t[n].optional)
  {
    var m, inherited := Extend(n, c), optional || t[n].optional;
    forall p | Leads(env, t, m, p) && Held(Child(u, c), p).Null? && End(m, p) in t
      ensures Fillable(t, Null, End(m, p), Inherits(t, m, inherited, p), true)
    {
      assert ([c] + p)[1..] == p;
      assert Leads(env, t, n, [c] + p) && End(n, [c] + p) == End(m, p);
      assert Held(u, [c] + p) == Held(Child(u, c), p);
    }
  }

  /** An update that leaves no required field null can be filled. */
  lemma {:induction false} FillableWhereHeld(env: Env, t: Table, u: Value, w: Value, n: Path, optional: bool)
    requires Wired(t) && DynamicListNothing(t) && n in t && Partial(env, t, u, n) && Reached(env, t, u, n)
    requires Conforms(env, t, w, n, optional) && Idle(env, t, w, n) && NullsFillable(env, t, u, n, optional)
    ensures Fillable(t, u, n, optional, true)
    decreases Remaining(t, n)
  {
    if IsStatic(t, n) {
      var inherited := optional || t[n].optional;
      forall c | Extend(n, c) in t ensures Fillable(t, Child(u, c), Extend(n, c), inherited, true) {
        if Reachable(env, c) {
          NullsBelow(env, t, u, n, optional, c);
          PartialChild(env, t, u, n, c);
          FillableWhereHeld(env, t, Child(u, c), w.fields[c], Extend(n, c), inherited);
        } else {
          UnreachedIsFillable(env, t, u, w, n, c, inherited);
        }
      }
    } else {
      assert Leads(env, t, n, []) && Held(u, []) == u && End(n, []) == n;
      AtomIsFillable(env, t, u, n, optional);
    }
  }

  lemma UnreachedIsFillable(env: Env, t: Table, u: Value, w: Value, n: Path, c: string, optional: bool)
    requires Wired(t) && DynamicListNothing(t) && IsStatic(t, n) && Extend(n, c) in t && !Reachable(env, c)
    requires Reached(env, t, u, n) && w.Obj? && c in w.fields && Idle(env, t, w, n)
    requires Conforms(env, t, w.fields[c], Extend(n, c), optional)
    ensures Fillable(t, Child(u, c), Extend(n, c), optional, true)
  {
    assert Child(u, c) == Null && w.fields[c] == Untouched(env, t, Extend(n, c));
    DefaultsSuffice(env, t, Extend(n, c), optional);
  }

  lemma AtomIsFillable(env: Env, t: Table, u: Value, n: Path, optional: bool)
    requires Wired(t) && DynamicListNothing(t) && n in t && !IsStatic(t, n) && Partial(env, t, u, n)
    requires u.Null? ==> Fillable(t, Null, n, optional, true)
    ensures Fillable(t, u, n, optional, true)
  {
    if t[n].kind.Object? {
      forall c ensures Extend(n, c) !in t {
        NothingBelow(t, n, c);
      }
    }
  }

  /** The result with another value at `p`. */
  function Placed(w: Value, p: seq<string>, y: Value): Value
    decreases |p|
  {
    if p == [] then y else Obj(Entries(w)[p[0] := Placed(Child(w, p[0]), p[1..], y)])
  }

  lemma {:induction false} PlacedFits(env: Env, t: Table, w: Value, n: Path, optional: bool, p: seq<string>, y: Value)
    requires Leads(env, t, n, p) && Conforms(env, t, w, n, optional) && Idle(env, t, w, n)
    requires End(n, p) in t && Conforms(env, t, y, End(n, p), Inherits(t, n, optional, p))
    ensures Conforms(env, t, Placed(w, p, y), n, optional) && Idle(env, t, Placed(w, p, y), n)
    ensures Held(Placed(w, p, y), p) == y
    decreases |p|
  {
    if p != [] {
      var x := Placed(w.fields[p[0]], p[1..], y);
      PlacedFits(env, t, w.fields[p[0]], Extend(n, p[0]), optional || t[n].optional, p[1..], y);
      EntryFits(env, t, w, n, optional, p[0], x);
    }
  }

  lemma EntryFits(env: Env, t: Table, w: Value, n: Path, optional: bool, c: string, x: Value)
    requires IsStatic(t, n) && Extend(n, c) in t && Reachable(env, c)
    requires Conforms(env, t, w, n, optional) && Idle(env, t, w, n)
    requires Conforms(env, t, x, Extend(n, c), optional || t[n].optional) && Idle(env, t, x, Extend(n, c))
    ensures w.Obj? && Conforms(env, t, Obj(w.fields[c := x]), n, optional) && Idle(env, t, Obj(w.fields[c := x]), n)
  {
  }

  // ------------------------------------------------------------------ the theorem

  /** What a result holds at `p` after it was converted again. */
  lemma AgainHolds(env: Env, t: Table, w: Value, p: seq<string>)
    requires [] in t && IsResult(env, t, w) && Leads(env, t, [], p) && Updated(env, t, Null, [], false, w).Ok?
    ensures var u := Updated(env, t, Null, [], false, w).value;
            && End([], p) in t
            && Held(Completion(env, t, u, [], true), p) == Again(env, t, p, Held(w, p))
            && Held(u, p) == Or(Last(Last(Earlier(env, t, [], p), Sticks(env, t[End([], p)].kind, Held(w, p))), Later(env, t, [], p)), Null)
  {
    var u := Updated(env, t, Null, [], false, w).value;
    UpdateLeaves(env, t, Null, [], false, w, p);
    ResultLeaves(env, t, [], w, false, p);
    HeldNothing(p);
    HeldCompletion(env, t, u, [], p);
  }

  lemma {:induction false} HeldNothing(p: seq<string>)
    ensures Held(Null, p) == Null
    decreases |p|
  {
    if p != [] {
      HeldNothing(p[1..]);
    }
  }

  lemma QuietKeeps(env: Env, t: Table, w: Value)
    requires ClosedTree(t) && DynamicListNothing(t) && ClockOk(env) && SnakeIdempotent(env) && Wired(t)
    requires Quiet(env, t) && IsResult(env, t, w)
    ensures Converted(env, t, w) == Ok(w)
  {
    QuietSucceeds(env, t, w);
    var u := Updated(env, t, Null, [], false, w).value;
    UpdateKeepsPartial(env, t, Null, [], false, w);
    UpdateKeepsReached(env, t, Null, [], false, w);
    forall p | Leads(env, t, [], p)
      ensures End([], p) in t
      ensures Held(u, p).Null? ==> Fillable(t, Null, End([], p), Inherits(t, [], false, p), true)
      ensures Held(Completion(env, t, u, [], true), p) == Held(w, p)
    {
      HeldAgain(env, t, w, p);
    }
    FillableWhereHeld(env, t, u, w, [], false);
    ConvertedIs(env, t, w);
    PartialFits(env, t, u, []);
    FillCompletes(env, t, u, [], false, true);
    CompletionConforms(env, t, u, [], false);
    CompletionIsIdle(env, t, u, []);
    SameWhereHeld(env, t, Completion(env, t, u, [], true), w, [], false);
  }

  lemma QuietSucceeds(env: Env, t: Table, w: Value)
    requires [] in t && Quiet(env, t) && IsResult(env, t, w)
    ensures Updated(env, t, Null, [], false, w).Ok?
  {
    forall p | Leads(env, t, [], p) && p != [] && End([], p) in t ensures DefaultFits(t[End([], p)].kind) {
      assert DefaultTaken(env, t, p);
    }
    assert !IsStatic(t, []) ==> Leads(env, t, [], []);
    TakenSuffices(env, t, w, [], false);
  }

  lemma HeldAgain(env: Env, t: Table, w: Value, p: seq<string>)
    requires [] in t && Wired(t) && DynamicListNothing(t) && Quiet(env, t) && IsResult(env, t, w) && Leads(env, t, [], p)
    requires Updated(env, t, Null, [], false, w).Ok?
    ensures var u := Updated(env, t, Null, [], false, w).value;
            && End([], p) in t
            && (Held(u, p).Null? ==> Fillable(t, Null, End([], p), Inherits(t, [], false, p), true))
            && Held(Completion(env, t, u, [], true), p) == Held(w, p)
  {
    var y := Held(w, p);
    HeldConforms(env, t, w, [], false, p);
    LeadsToEnd(env, t, [], p);
    if TooLongAt(t[End([], p)].kind, y) {
      LongTextFails(env, t, w, [], false, p);
    }
    AgainHolds(env, t, w, p);
    assert Secure(env, t, p);
    SecureKeeps(env, t, p, y);
    if Held(Updated(env, t, Null, [], false, w).value, p).Null? {
      OthersFirm(env, t, [], p);
      NullIsFillable(env, t, End([], p), Inherits(t, [], false, p), y, Earlier(env, t, [], p), Later(env, t, [], p));
    }
  }

  lemma NullIsFillable(env: Env, t: Table, m: Path, optional: bool, y: Value, earlier: Option<Value>, later: Option<Value>)
    requires m in t && !IsStatic(t, m) && Conforms(env, t, y, m, optional) && !TooLongAt(t[m].kind, y)
    requires Or(Last(Last(earlier, Sticks(env, t[m].kind, y)), later), Null).Null?
    requires FirmIfAny(env, t, m, earlier) && FirmIfAny(env, t, m, later)
    ensures Fillable(t, Null, m, optional, true)
  {
    ConformingSticks(env, t, m, y, optional);
  }

  lemma LoudChanges(env: Env, t: Table, w: Value) returns (x: Value)
    requires ClosedTree(t) && DynamicListNothing(t) && Wired(t) && !Quiet(env, t) && IsResult(env, t, w)
    ensures IsResult(env, t, x) && Converted(env, t, x) != Ok(x)
  {
    if !Taken(env, t, [], false) {
      x := w;
      TakenNeeded(env, t, w, [], false);
      ConvertedIs(env, t, x);
    } else if p :| Leads(env, t, [], p) && !DefaultTaken(env, t, p) {
      x := LongDefaultChanges(env, t, w, p);
    } else {
      var p :| Leads(env, t, [], p) && !Secure(env, t, p);
      var y := InsecureLoses(env, t, p);
      x := PlacedResult(env, t, w, p, y);
      InsecureChanges(env, t, x, p);
    }
  }

  lemma PlacedResult(env: Env, t: Table, w: Value, p: seq<string>, y: Value) returns (x: Value)
    requires [] in t && IsResult(env, t, w) && Leads(env, t, [], p) && End([], p) in t
    requires Conforms(env, t, y, End([], p), Inherits(t, [], false, p))
    requires p == [] && TooLongAt(t[[]].kind, y) ==> t[[]].optional
    ensures IsResult(env, t, x) && Held(x, p) == y
  {
    PlacedFits(env, t, w, [], false, p, y);
    x := Placed(w, p, y);
  }

  lemma LongDefaultChanges(env: Env, t: Table, w: Value, p: seq<string>) returns (x: Value)
    requires ClosedTree(t) && Wired(t) && IsResult(env, t, w) && Leads(env, t, [], p) && !DefaultTaken(env, t, p)
    ensures IsResult(env, t, x) && Converted(env, t, x) != Ok(x)
  {
    LeadsToEnd(env, t, [], p);
    var m := End([], p);
    LongDefaultConforms(env, t, m, Inherits(t, [], false, p));
    x := PlacedResult(env, t, w, p, Str(t[m].kind.textDefault.value));
    LongTextFails(env, t, x, [], false, p);
    FailedUpdateChanges(env, t, x);
  }

  lemma LongDefaultConforms(env: Env, t: Table, m: Path, optional: bool)
    requires m in t && KindOk(t[m].kind) && !DefaultFits(t[m].kind)
    ensures Conforms(env, t, Str(t[m].kind.textDefault.value), m, optional)
  {
  }

  lemma FailedUpdateChanges(env: Env, t: Table, x: Value)
    requires [] in t && Descends(t) && Updated(env, t, Null, [], false, x).Err?
    ensures Converted(env, t, x) != Ok(x)
  {
    ConvertedIs(env, t, x);
  }

  lemma InsecureChanges(env: Env, t: Table, x: Value, p: seq<string>)
    requires ClosedTree(t) && DynamicListNothing(t) && Wired(t) && IsResult(env, t, x) && Leads(env, t, [], p)
    requires End([], p) in t && (TooLongAt(t[End([], p)].kind, Held(x, p)) || Again(env, t, p, Held(x, p)) != Held(x, p))
    ensures Converted(env, t, x) != Ok(x)
  {
    ConvertedIs(env, t, x);
    if Updated(env, t, Null, [], false, x).Ok? {
      if TooLongAt(t[End([], p)].kind, Held(x, p)) {
        LongTextFails(env, t, x, [], false, p);
      }
      var u := Updated(env, t, Null, [], false, x).value;
      AgainHolds(env, t, x, p);
      UpdateKeepsPartial(env, t, Null, [], false, x);
      PartialFits(env, t, u, []);
      FillCompletes(env, t, u, [], false, true);
    }
  }

  /** The item converts, but its result does not convert to itself later. */
  ghost predicate Changes(env: Env, later: Env, t: Table, value: Value)
    requires Descends(t)
  {
    var r := Converted(env, t, value);
    r.Ok? && Converted(later, t, r.value) != r
  }

  /** What is never written does not show the time. */
  ghost predicate StandsStill(env: Env, later: Env, t: Table, n: Path)
    requires n in t
    decreases Remaining(t, n)
  {
    IsStatic(t, n) ==>
      && (forall c :: Extend(n, c) in t && Reachable(env, c) ==> StandsStill(env, later, t, Extend(n, c)))
      && (forall a :: Extend(n, a) in t && !Reachable(env, a) ==>
                        Untouched(env, t, Extend(n, a)) == Untouched(later, t, Extend(n, a)))
  }

  lemma {:induction false} StillIdle(env: Env, later: Env, t: Table, w: Value, n: Path, optional: bool)
    requires later.snake == env.snake && n in t && StandsStill(env, later, t, n) && Idle(env, t, w, n)
    requires Conforms(env, t, w, n, optional)
    ensures Idle(later, t, w, n)
    decreases w
  {
    if IsStatic(t, n) {
      forall c | c in w.fields && Reachable(env, c) ensures Idle(later, t, w.fields[c], Extend(n, c)) {
        StillIdle(env, later, t, w.fields[c], Extend(n, c), optional || t[n].optional);
      }
    }
  }

  lemma {:induction false} IdleStandsStill(env: Env, later: Env, t: Table, w: Value, n: Path, optional: bool)
    requires later.snake == env.snake && n in t && Conforms(env, t, w, n, optional)
    requires Idle(env, t, w, n) && Idle(later, t, w, n)
    ensures StandsStill(env, later, t, n)
    decreases w
  {
    if IsStatic(t, n) {
      forall c | Extend(n, c) in t && Reachable(env, c) ensures StandsStill(env, later, t, Extend(n, c)) {
        IdleStandsStill(env, later, t, w.fields[c], Extend(n, c), optional || t[n].optional);
      }
      assert forall a :: Extend(n, a) in t ==> a in w.fields;
    }
  }

  lemma {:induction false} ClockDoesNotMatter(env: Env, now: string, t: Table, w: Value, n: Path, optional: bool)
    requires n in t
    ensures Conforms(env, t, w, n, optional) <==> Conforms(env.(now := now), t, w, n, optional)
    decreases w
  {
    if IsStatic(t, n) && w.Obj? {
      forall c | c in w.fields && Extend(n, c) in t
        ensures Conforms(env, t, w.fields[c], Extend(n, c), optional || t[n].optional) <==>
                Conforms(env.(now := now), t, w.fields[c], Extend(n, c), optional || t[n].optional)
      {
        ClockDoesNotMatter(env, now, t, w.fields[c], Extend(n, c), optional || t[n].optional);
      }
    }
  }

  /** For every schema the validator accepts, and two readings of the clock: converting
      any result again, at the second reading, gives it back if and only if no item
      converts at all, or the schema is quiet and what is never written does not show
      the time. */
  lemma IdempotentExactly(env: Env, now: string, t: Table)
    requires ClosedTree(t) && DynamicListNothing(t) && SnakeIdempotent(env)
    requires ClockOk(env) && ClockOk(env.(now := now))
    ensures Descends(t)
    ensures var later := env.(now := now);
            (forall value :: !Changes(env, later, t, value)) <==>
            ((exists value :: Converted(env, t, value).Ok?) ==> Quiet(later, t) && StandsStill(env, later, t, []))
  {
    ClosedTreeWired(t);
    var later := env.(now := now);
    if Quiet(later, t) && StandsStill(env, later, t, []) {
      forall value ensures !Changes(env, later, t, value) {
        if Converted(env, t, value).Ok? {
          QuietForever(env, now, t, value);
        }
      }
    } else if item :| Converted(env, t, item).Ok? {
      var value := LoudSometime(env, now, t, item);
      assert Changes(env, later, t, value);
    }
  }

  lemma QuietForever(env: Env, now: string, t: Table, value: Value)
    requires ClosedTree(t) && DynamicListNothing(t) && SnakeIdempotent(env) && Wired(t)
    requires ClockOk(env) && ClockOk(env.(now := now))
    requires Quiet(env.(now := now), t) && StandsStill(env, env.(now := now), t, [])
    requires Converted(env, t, value).Ok?
    ensures !Changes(env, env.(now := now), t, value)
  {
    var later, w := env.(now := now), Converted(env, t, value).value;
    ConvertedIsResult(env, t, value);
    ClockDoesNotMatter(env, now, t, w, [], false);
    StillIdle(env, later, t, w, [], false);
    QuietKeeps(later, t, w);
  }

  lemma LoudSometime(env: Env, now: string, t: Table, item: Value) returns (value: Value)
    requires ClosedTree(t) && DynamicListNothing(t) && SnakeIdempotent(env) && Wired(t)
    requires ClockOk(env) && ClockOk(env.(now := now)) && Converted(env, t, item).Ok?
    requires !(Quiet(env.(now := now), t) && StandsStill(env, env.(now := now), t, []))
    ensures Changes(env, env.(now := now), t, value)
  {
    var later, w := env.(now := now), Converted(env, t, item).value;
    value := item;
    if Converted(later, t, w) == Ok(w) {
      ConvertedIsResult(env, t, item);
      ConvertedIsResult(later, t, w);
      IdleStandsStill(env, later, t, w, [], false);
      var x := LoudChanges(later, t, w);
      StandsStillBack(env, later, t, []);
      StillIdle(later, env, t, x, [], false);
      ClockDoesNotMatter(env, now, t, x, [], false);
      ItemConverts(env, t, x);
      value := ItemFor(env, t, x);
    }
  }

  lemma {:induction false} StandsStillBack(env: Env, later: Env, t: Table, n: Path)
    requires later.snake == env.snake && n in t && StandsStill(env, later, t, n)
    ensures StandsStill(later, env, t, n)
    decreases Remaining(t, n)
  {
    if IsStatic(t, n) {
      forall c | Extend(n, c) in t && Reachable(env, c) ensures StandsStill(later, env, t, Extend(n, c)) {
        StandsStillBack(env, later, t, Extend(n, c));
      }
    }
  }

  // ------------------------------------------------------------ simple conditions

  /** No name of the schema has a sibling that is its snake case. */
  ghost predicate Uncontested(env: Env, t: Table) {
    forall n, a :: Extend(n, a) in t && Extend(n, env.snake(a)) in t ==> Reachable(env, a)
  }

  predicate DefaultsFit(t: Table) {
    forall n :: n in t ==> DefaultFits(t[n].kind)
  }

  lemma {:induction false} UncontestedTaken(env: Env, t: Table, n: Path, optional: bool)
    requires n in t && Uncontested(env, t)
    ensures Taken(env, t, n, optional)
    decreases Remaining(t, n)
  {
    forall c | Extend(n, c) in t && Reachable(env, c) ensures Taken(env, t, Extend(n, c), optional || t[n].optional) {
      UncontestedTaken(env, t, Extend(n, c), optional || t[n].optional);
    }
  }

  lemma {:induction false} NobodyStores(env: Env, t: Table, n: Path, keys: seq<string>, p: seq<string>)
    requires Uncontested(env, t) && Leads(env, t, n, p) && p != []
    requires var u := Untouched(env, t, n);
             u.Obj? && u.fields.Keys == ChildNames(t, n) && forall k :: k in keys ==> k in u.fields && k != p[0]
    ensures StoredBy(env, t, n, Untouched(env, t, n), keys, p) == None
    decreases |keys|
  {
    if keys != [] {
      NobodyStores(env, t, n, keys[1..], p);
      InChildNames(t, n, keys[0]);
      assert keys[0] in Untouched(env, t, n).fields;
    }
  }

  lemma {:induction false} NobodyElseWrites(env: Env, t: Table, n: Path, p: seq<string>)
    requires Uncontested(env, t) && Leads(env, t, n, p)
    ensures Later(env, t, n, p) == None && Earlier(env, t, n, p) == None
    decreases |p|
  {
    if p != [] {
      var names := NamesBelow(t, n);
      NobodyElseWrites(env, t, Extend(n, p[0]), p[1..]);
      UntouchedObject(env, t, n);
      NameIsBelow(env, t, n, p);
      UpToAndFrom(names, p[0]);
      NobodyStores(env, t, n, From(names, p[0]), p);
      NobodyStores(env, t, n, UpTo(names, p[0]), p);
    }
  }

  /** Without siblings one of which is the snake case of the other, and without
      defaults of 4 GiB, a schema is quiet. */
  lemma UncontestedIsQuiet(env: Env, t: Table)
    requires [] in t && Uncontested(env, t) && DefaultsFit(t)
    ensures Quiet(env, t)
  {
    UncontestedTaken(env, t, [], false);
    forall p | Leads(env, t, [], p) ensures DefaultTaken(env, t, p) && Secure(env, t, p) {
      LeadsToEnd(env, t, [], p);
      NobodyElseWrites(env, t, [], p);
    }
  }

  /** The schema's own names survive the snake-case conversion. */
  predicate SnakeStable(env: Env, t: Table) {
    forall n, i :: n in t && 0 <= i < |n| ==> Reachable(env, n[i])
  }

  lemma {:induction false} SnakeStandsStill(env: Env, later: Env, t: Table, n: Path)
    requires n in t && SnakeStable(env, t)
    ensures StandsStill(env, later, t, n)
    decreases Remaining(t, n)
  {
    forall c | Extend(n, c) in t ensures Reachable(env, c) && StandsStill(env, later, t, Extend(n, c)) {
      assert Extend(n, c)[|n|] == c;
      SnakeStandsStill(env, later, t, Extend(n, c));
    }
  }

  /** So conversion is idempotent, whatever the clock says the second time, on schemas
      whose names are snake case and whose default texts fit. */
  lemma ConversionIdempotent(env: Env, now: string, t: Table, value: Value)
    requires ClosedTree(t) && DynamicListNothing(t) && SnakeIdempotent(env) && Descends(t)
    requires ClockOk(env) && ClockOk(env.(now := now))
    requires SnakeStable(env, t) && DefaultsFit(t) && Converted(env, t, value).Ok?
    ensures var w := Converted(env, t, value).value;
            Converted(env.(now := now), t, w) == Ok(w)
  {
    var later := env.(now := now);
    SnakeStandsStill(env, later, t, []);
    forall n, a | Extend(n, a) in t ensures Reachable(later, a) {
      assert Extend(n, a)[|n|] == a;
    }
    UncontestedIsQuiet(later, t);
    ClosedTreeWired(t);
    QuietForever(env, now, t, value);
  }
}
