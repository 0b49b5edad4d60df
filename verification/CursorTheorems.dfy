/** The cursor frame law: what a walk may change, and what a write through the
    reference it returns may change. */
module CursorTheorems {
  import opened Results
  import opened Names
  import opened Schema
  import opened Json
  import opened Template

  /** A node kept its value, or a null became a container, or a container grew. */
  predicate Widens(v: Value, w: Value) {
    || v == w
    || (v.Null? && (w.Obj? || w.Arr?))
    || (v.Obj? && w.Obj? && v.fields.Keys <= w.fields.Keys)
    || (v.Arr? && w.Arr? && |v.items| <= |w.items|)
  }

  /** Entering adds at most nulls to the container. */
  lemma EnterWidens(t: Table, v: Value, base: Path, e: Entry, e': Entry)
    requires Enter(t, v, base, e).Inside?
    ensures var node := Enter(t, v, base, e).node;
            && Widens(v, node)
            && (Has(v, e') ==> Has(node, e') && At(node, e') == At(v, e'))
            && (Has(node, e') && !Has(v, e') ==> At(node, e') == Null)
  {
  }

  /** The walk alone: every node that was there is still there; only nodes above
      the end of the cursor change, from null to a container or by growing; and
      every node that appears off the cursor, or at its end, is null. */
  lemma {:induction false} WalkWidens(t: Table, v: Value, base: Path, p: Cursor, q: Cursor)
    requires !Walk(t, v, base, p).Failed?
    ensures var w := Walk(t, v, base, p);
            && (Reaches(v, q) ==> Reaches(w.tree, q) && Widens(Get(v, q), Get(w.tree, q)))
            && (Reaches(v, q) && !(q < p) ==> Get(w.tree, q) == Get(v, q))
            && (Reaches(w.tree, q) && !Reaches(v, q) && !(q < p) ==> Get(w.tree, q) == Null)
    decreases |p|
  {
    if p != [] && Enter(t, v, base, p[0]).Inside? {
      var inside := Enter(t, v, base, p[0]);
      EnterWidens(t, v, base, p[0], if q == [] then p[0] else q[0]);
      if q != [] {
        if q[0] == p[0] {
          WalkWidens(t, At(inside.node, p[0]), inside.base, p[1..], q[1..]);
          TailPrefix(q, p);
        }
        NothingInNull(q[1..]);
      }
    }
  }

  lemma TailPrefix(q: Cursor, p: Cursor)
    requires q != [] && p != [] && q[0] == p[0]
    ensures q[1..] < p[1..] <==> q < p
  {
    assert q == [q[0]] + q[1..] && p == [p[0]] + p[1..];
  }

  lemma NothingInNull(q: Cursor)
    ensures Reaches(Null, q) <==> q == []
  {
  }

  /** Writing through `get_field`: the written value is read back at the cursor;
      a cursor that is neither a prefix nor an extension of it reads what it read
      before, or the null padding of an array if it led nowhere before. */
  lemma WriteThroughFrame(t: Table, root: Value, p: Cursor, x: Value, q: Cursor)
    requires Walk(t, root, [], p).Found?
    ensures var w := Put(Walk(t, root, [], p).tree, p, x);
            && Reaches(w, p) && Get(w, p) == x
            && (!(p <= q) && !(q <= p) && Reaches(root, q) ==> Reaches(w, q) && Get(w, q) == Get(root, q))
            && (!(p <= q) && !(q <= p) && Reaches(w, q) && !Reaches(root, q) ==> Get(w, q) == Null)
  {
    var tree := Walk(t, root, [], p).tree;
    GetPut(tree, p, x);
    WalkWidens(t, root, [], p, q);
    if !(p <= q) && !(q <= p) {
      GetPutElsewhere(tree, p, q, x);
    }
  }
}
