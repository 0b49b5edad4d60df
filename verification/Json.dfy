/** JSON values, and reading and writing them in place through a cursor.

    A mutable reference into a value is a cursor: the entries walked from the
    root. `Put` is an assignment through such a reference. */
module Json {

  /** `serde_json::Number`: an integer or a float. */
  datatype Numeric = Whole(whole: int) | Fraction(fraction: real)

  datatype Value =
    | Null
    | Bool(flag: bool)
    | Num(number: Numeric)
    | Str(text: string)
    | Arr(items: seq<Value>)
    | Obj(fields: map<string, Value>)

  datatype Entry = Key(key: string) | Index(index: nat)

  type Cursor = seq<Entry>

  predicate Has(v: Value, e: Entry) {
    match e
    case Key(k) => v.Obj? && k in v.fields
    case Index(i) => v.Arr? && i < |v.items|
  }

  function At(v: Value, e: Entry): (r: Value)
    requires Has(v, e)
    ensures r < v
  {
    match e
    case Key(k) => v.fields[k]
    case Index(i) => v.items[i]
  }

  function Set(v: Value, e: Entry, x: Value): (r: Value)
    requires Has(v, e)
    ensures Has(r, e) && At(r, e) == x
    ensures forall e' :: Has(r, e') <==> Has(v, e')
    ensures forall e' :: Has(v, e') && e' != e ==> At(r, e') == At(v, e')
  {
    match e
    case Key(k) => Obj(v.fields[k := x])
    case Index(i) => Arr(v.items[i := x])
  }

  /** The cursor leads to a node of `v`. */
  predicate Reaches(v: Value, p: Cursor) {
    p == [] || (Has(v, p[0]) && Reaches(At(v, p[0]), p[1..]))
  }

  function Get(v: Value, p: Cursor): Value
    requires Reaches(v, p)
  {
    if p == [] then v else Get(At(v, p[0]), p[1..])
  }

  function Put(v: Value, p: Cursor, x: Value): Value
    requires Reaches(v, p)
  {
    if p == [] then x else Set(v, p[0], Put(At(v, p[0]), p[1..], x))
  }

  lemma SetSet(v: Value, e: Entry, x: Value, y: Value)
    requires Has(v, e)
    ensures Set(Set(v, e, x), e, y) == Set(v, e, y)
    ensures Set(v, e, At(v, e)) == v
  {
  }

  /** What was written is read back, and the cursor still leads there. */
  lemma {:induction false} GetPut(v: Value, p: Cursor, x: Value)
    requires Reaches(v, p)
    ensures Reaches(Put(v, p, x), p) && Get(Put(v, p, x), p) == x
  {
    if p != [] {
      GetPut(At(v, p[0]), p[1..], x);
    }
  }

  lemma {:induction false} PutPut(v: Value, p: Cursor, x: Value, y: Value)
    requires Reaches(v, p)
    ensures Reaches(Put(v, p, x), p) && Put(Put(v, p, x), p, y) == Put(v, p, y)
  {
    if p != [] {
      PutPut(At(v, p[0]), p[1..], x, y);
      SetSet(v, p[0], Put(At(v, p[0]), p[1..], x), Put(At(v, p[0]), p[1..], y));
    }
  }

  /** Writing back what is there changes nothing. */
  lemma {:induction false} PutGet(v: Value, p: Cursor)
    requires Reaches(v, p)
    ensures Put(v, p, Get(v, p)) == v
  {
    if p != [] {
      PutGet(At(v, p[0]), p[1..]);
      SetSet(v, p[0], At(v, p[0]), At(v, p[0]));
    }
  }

  /** Cursors compose: reading and writing below a node. */
  lemma {:induction false} Compose(v: Value, p: Cursor, q: Cursor, x: Value)
    requires Reaches(v, p)
    ensures Reaches(v, p + q) <==> Reaches(Get(v, p), q)
    ensures Reaches(v, p + q) ==> Get(v, p + q) == Get(Get(v, p), q)
    ensures Reaches(v, p + q) ==> Put(v, p + q, x) == Put(v, p, Put(Get(v, p), q, x))
  {
    if p == [] {
      assert p + q == q;
    } else {
      assert (p + q)[1..] == p[1..] + q;
      Compose(At(v, p[0]), p[1..], q, x);
    }
  }

  /** The frame law: a cursor that is neither a prefix nor an extension of the
      one written through reads the same as before. */
  lemma {:induction false} GetPutElsewhere(v: Value, p: Cursor, q: Cursor, x: Value)
    requires Reaches(v, p) && !(p <= q) && !(q <= p)
    ensures Reaches(Put(v, p, x), q) <==> Reaches(v, q)
    ensures Reaches(v, q) ==> Get(Put(v, p, x), q) == Get(v, q)
  {
    var w := Put(v, p, x);
    assert p != [] && q != [];
    if p[0] == q[0] {
      assert p == [p[0]] + p[1..] && q == [q[0]] + q[1..];
      GetPutElsewhere(At(v, p[0]), p[1..], q[1..], x);
    }
  }
}
