/** The byte order of strings, and the sorted sequences a `BTreeMap` or
    `BTreeSet` hands out when it is iterated. */
module Order {

  /** Strict lexicographic order, the `Ord` of Rust strings. */
  predicate Less(a: string, b: string) {
    if b == "" then false
    else if a == "" then true
    else a[0] < b[0] || (a[0] == b[0] && Less(a[1..], b[1..]))
  }

  lemma {:induction false} LessIrreflexive(a: string)
    ensures !Less(a, a)
  {
    if a != "" {
      LessIrreflexive(a[1..]);
    }
  }

  lemma {:induction false} LessTransitive(a: string, b: string, c: string)
    requires Less(a, b) && Less(b, c)
    ensures Less(a, c)
  {
    if a != "" && a[0] == b[0] && b[0] == c[0] {
      LessTransitive(a[1..], b[1..], c[1..]);
    }
  }

  lemma {:induction false} LessTotal(a: string, b: string)
    ensures a == b || Less(a, b) || Less(b, a)
  {
    if a != "" && b != "" && a[0] == b[0] {
      LessTotal(a[1..], b[1..]);
      assert a == [a[0]] + a[1..] && b == [b[0]] + b[1..];
    }
  }

  /** A common prefix does not matter to the order. */
  lemma {:induction false} LessAfterPrefix(p: string, a: string, b: string)
    ensures Less(p + a, p + b) <==> Less(a, b)
  {
    if p == "" {
      assert p + a == a && p + b == b;
    } else {
      LessAfterPrefix(p[1..], a, b);
      assert (p + a)[1..] == p[1..] + a && (p + b)[1..] == p[1..] + b;
    }
  }

  /** The strings agree before `k`, and there the first one ends or has the smaller byte. */
  predicate LessFrom(a: string, b: string, k: nat) {
    k <= |a| && k < |b| && (forall i :: 0 <= i < k ==> a[i] == b[i]) && (k == |a| || a[k] < b[k])
  }

  lemma {:induction false} LessExactly(a: string, b: string)
    ensures Less(a, b) <==> exists k: nat :: LessFrom(a, b, k)
  {
    if a != "" && b != "" && a[0] == b[0] {
      LessExactly(a[1..], b[1..]);
      if k: nat :| LessFrom(a[1..], b[1..], k) {
        assert forall i :: 0 < i < k + 1 ==> a[i] == a[1..][i - 1] && b[i] == b[1..][i - 1];
        assert LessFrom(a, b, k + 1);
      }
      if k: nat :| LessFrom(a, b, k) {
        assert LessFrom(a[1..], b[1..], k - 1);
      }
    } else {
      assert b != "" && (a == "" || a[0] < b[0]) ==> LessFrom(a, b, 0);
    }
  }

  ghost predicate InjectiveOn<T(!new)>(s: set<T>, key: T -> string) {
    forall x, y :: x in s && y in s && key(x) == key(y) ==> x == y
  }

  predicate IsLeast<T(==)>(s: set<T>, key: T -> string, m: T) {
    m in s && forall x :: x in s && x != m ==> Less(key(m), key(x))
  }

  /** A finite set has exactly one least element. */
  lemma {:induction false} LeastExists<T(!new)>(s: set<T>, key: T -> string)
    requires s != {} && InjectiveOn(s, key)
    ensures exists m :: IsLeast(s, key, m)
    ensures forall a, b :: IsLeast(s, key, a) && IsLeast(s, key, b) ==> a == b
  {
    var x :| x in s;
    if s == {x} {
      assert IsLeast(s, key, x);
    } else {
      var rest := s - {x};
      LeastExists(rest, key);
      var l :| IsLeast(rest, key, l);
      LessTotal(key(x), key(l));
      var m := if Less(key(x), key(l)) then x else l;
      forall y | y in s && y != m ensures Less(key(m), key(y)) {
        if m == x && y != l {
          LessTransitive(key(x), key(l), key(y));
        }
      }
      assert IsLeast(s, key, m);
    }
    forall a, b | IsLeast(s, key, a) && IsLeast(s, key, b) ensures a == b {
      if a != b {
        LessTransitive(key(a), key(b), key(a));
        LessIrreflexive(key(a));
      }
    }
  }

  ghost predicate SortedBy<T(!new)>(q: seq<T>, key: T -> string) {
    forall i, j :: 0 <= i < j < |q| ==> Less(key(q[i]), key(q[j]))
  }

  function Elements<T(==)>(q: seq<T>): set<T> {
    set x | x in q
  }

  lemma LeastFirst<T(!new)>(s: set<T>, key: T -> string, m: T, rest: seq<T>)
    requires IsLeast(s, key, m)
    requires Elements(rest) == s - {m} && SortedBy(rest, key)
    ensures SortedBy([m] + rest, key) && Elements([m] + rest) == s
  {
    var q := [m] + rest;
    forall i, j | 0 <= i < j < |q| ensures Less(key(q[i]), key(q[j])) {
      assert q[j] == rest[j - 1];
      assert rest[j - 1] in Elements(rest);
      if i != 0 {
        assert q[i] == rest[i - 1];
      }
    }
    forall x ensures x in q <==> x in s {
      assert x in q <==> x == m || x in rest;
      assert x in rest <==> x in Elements(rest);
    }
  }

  /** The elements of `s` in the order of their keys. */
  function Sorted<T(==,!new)>(s: set<T>, key: T -> string): (q: seq<T>)
    requires InjectiveOn(s, key)
    ensures Elements(q) == s
    ensures SortedBy(q, key)
  {
    if s == {} then []
    else
      LeastExists(s, key);
      var m :| IsLeast(s, key, m);
      var rest := Sorted(s - {m}, key);
      LeastFirst(s, key, m, rest);
      [m] + rest
  }

  /** Sorting is canonical: a sorted sequence is determined by its elements. */
  lemma {:induction false} SortedUnique<T(!new)>(a: seq<T>, b: seq<T>, key: T -> string)
    requires SortedBy(a, key) && SortedBy(b, key)
    requires Elements(a) == Elements(b)
    ensures a == b
  {
    assert forall i :: 0 <= i < |a| ==> a[i] in Elements(b);
    assert forall i :: 0 <= i < |b| ==> b[i] in Elements(a);
    if a == [] {
    } else {
      if a[0] != b[0] {
        LessTransitive(key(a[0]), key(b[0]), key(a[0]));
        LessIrreflexive(key(a[0]));
      }
      NoRepeats(a, key);
      NoRepeats(b, key);
      assert Elements(a[1..]) == Elements(a) - {a[0]};
      assert Elements(b[1..]) == Elements(b) - {b[0]};
      SortedUnique(a[1..], b[1..], key);
      assert a == [a[0]] + a[1..] && b == [b[0]] + b[1..];
    }
  }

  lemma NoRepeats<T(!new)>(a: seq<T>, key: T -> string)
    requires SortedBy(a, key)
    ensures forall i, j :: 0 <= i < j < |a| ==> a[i] != a[j]
  {
    forall i, j | 0 <= i < j < |a| ensures a[i] != a[j] {
      LessIrreflexive(key(a[i]));
    }
  }
}
