/** Field schemas: the native field kinds of a model. */
module Schema {
  import opened Results
  import opened Names

  type U32 = n: int | 0 <= n < 0x1_0000_0000

  type I64 = n: int | -0x8000_0000_0000_0000 <= n < 0x8000_0000_0000_0000

  datatype StringKind =
    | AnyLength
    | FixedLength(length: U32)
    | LengthRange(shortest: Option<U32>, longest: U32)

  datatype ObjectKind = Dynamic | Enumerate(alternatives: seq<string>) | Static

  datatype Kind =
    | NoneKind
    | Boolean(boolDefault: Option<bool>)
    | Integer(intDefault: Option<I64>, minimum: Option<I64>, maximum: Option<I64>)
    | Number(realDefault: Option<real>, lowest: Option<real>, highest: Option<real>)
    | String(textDefault: Option<string>, stringKind: StringKind)
    | OneOfStrings(choiceDefault: Option<string>, choices: seq<string>)
    | DateTime(defaultsToNow: bool)
    | Ip
    | Uuid
    | StringArray
    | Object(objectChildren: seq<Path>, objectKind: ObjectKind)
    | ObjectArray(elementChildren: seq<Path>)
  {
    /** `get_children`: only the aggregation types list children. */
    function Children(): Option<seq<Path>> {
      match this
      case Object(children, _) => Some(children)
      case ObjectArray(children) => Some(children)
      case _ => None
    }

    /** `*get_children_mut() = children`. */
    function WithChildren(children: seq<Path>): Kind {
      match this
      case Object(_, k) => Object(children, k)
      case ObjectArray(_) => ObjectArray(children)
      case _ => this
    }
  }

  datatype Field = Field(name: Path, kind: Kind, optional: bool)

  type Table = map<Path, Field>

  predicate AtLeast(value: int, bound: Option<int>) {
    bound.Some? ==> bound.value <= value
  }

  predicate AtMost(value: int, bound: Option<int>) {
    bound.Some? ==> value <= bound.value
  }

  predicate RealAtLeast(value: real, bound: Option<real>) {
    bound.Some? ==> bound.value <= value
  }

  predicate RealAtMost(value: real, bound: Option<real>) {
    bound.Some? ==> value <= bound.value
  }

  /** Strings are byte sequences: their length is the number of bytes. */
  predicate LengthFits(length: nat, kind: StringKind) {
    match kind
    case AnyLength => true
    case FixedLength(n) => length == n
    case LengthRange(lo, hi) => (lo.Some? ==> lo.value <= length) && length <= hi
  }

  /** A kind whose bounds leave room for a value and whose default, if it has
      one, is a legal value. */
  predicate KindOk(kind: Kind) {
    match kind
    case Integer(d, lo, hi) =>
      && (d.Some? ==> AtLeast(d.value, lo) && AtMost(d.value, hi))
      && (lo.Some? ==> AtMost(lo.value, hi))
    case Number(d, lo, hi) =>
      && (d.Some? ==> RealAtLeast(d.value, lo) && RealAtMost(d.value, hi))
      && (lo.Some? ==> RealAtMost(lo.value, hi))
    case String(d, k) =>
      && (d.Some? ==> LengthFits(|d.value|, k))
      && (k.LengthRange? && k.shortest.Some? ==> k.shortest.value <= k.longest)
    case OneOfStrings(d, choices) => d.Some? ==> d.value in choices
    case _ => true
  }

  predicate Between(i: int, lo: Option<int>, hi: Option<int>) {
    (lo.None? || lo.value <= i) && (hi.None? || i <= hi.value)
  }

  predicate RealBetween(r: real, lo: Option<real>, hi: Option<real>) {
    (lo.None? || lo.value <= r) && (hi.None? || r <= hi.value)
  }

  predicate HasLength(length: nat, kind: StringKind) {
    match kind
    case AnyLength => true
    case FixedLength(n) => length == n
    case LengthRange(lo, hi) => (lo.None? || lo.value <= length) && length <= hi
  }

  /** Some 64-bit integer, some float, or some text shorter than 4 GiB fits the bounds. */
  ghost predicate LeavesRoom(kind: Kind) {
    match kind
    case Integer(_, lo, hi) => exists i: I64 :: Between(i, lo, hi)
    case Number(_, lo, hi) => exists r :: RealBetween(r, lo, hi)
    case String(_, k) => exists length: U32 :: HasLength(length, k)
    case _ => true
  }

  /** The default, if there is one, is within the bounds or among the choices. */
  predicate DefaultIsLegal(kind: Kind) {
    match kind
    case Integer(d, lo, hi) => d.None? || Between(d.value, lo, hi)
    case Number(d, lo, hi) => d.None? || RealBetween(d.value, lo, hi)
    case String(d, k) => d.None? || HasLength(|d.value|, k)
    case OneOfStrings(d, choices) => d.None? || d.value in choices
    case _ => true
  }

  /** What the comparisons of the validator come to. */
  lemma KindOkExactly(kind: Kind)
    ensures KindOk(kind) <==> LeavesRoom(kind) && DefaultIsLegal(kind)
  {
    match kind {
      case Integer(_, lo, hi) =>
        var i: I64 := if lo.Some? then lo.value else if hi.Some? then hi.value else 0;
        assert KindOk(kind) ==> Between(i, lo, hi);
      case Number(_, lo, hi) =>
        var r := if lo.Some? then lo.value else if hi.Some? then hi.value else 0.0;
        assert KindOk(kind) ==> RealBetween(r, lo, hi);
      case String(_, k) =>
        var length: U32 := match k case AnyLength => 0 case FixedLength(n) => n case LengthRange(_, hi) => hi;
        assert KindOk(kind) ==> HasLength(length, k);
      case _ =>
    }
  }

  /** The parent of a name: its path without the last component. */
  function Parent(n: Path): Option<Path> {
    if n == [] then None else Some(n[..|n| - 1])
  }

  function DirectChildren(names: set<Path>, n: Path): set<Path> {
    set c | c in names && Parent(c) == Some(n)
  }

  /** A name and its ancestors. */
  ghost function Ancestry(n: Path): set<Path> {
    if n == [] then {[]} else Ancestry(n[..|n| - 1]) + {n}
  }

  /** A set of names together with all their ancestors. */
  ghost function Closure(names: set<Path>): set<Path> {
    if names == {} then {} else
      var k :| k in names;
      Ancestry(k) + Closure(names - {k})
  }

  lemma {:induction false} InAncestry(k: Path, n: Path)
    ensures n in Ancestry(k) <==> n <= k
  {
    if k != [] {
      InAncestry(k[..|k| - 1], n);
      if n <= k && |n| == |k| {
        assert n == k;
      }
    }
  }

  /** The closure is the set of prefixes. */
  lemma {:induction false} InClosure(names: set<Path>, n: Path)
    ensures n in Closure(names) <==> exists k :: k in names && n <= k
  {
    if names != {} {
      var k :| k in names && Closure(names) == Ancestry(k) + Closure(names - {k});
      InAncestry(k, n);
      InClosure(names - {k}, n);
      assert forall k' :: k' in names ==> k' == k || k' in names - {k};
    }
  }

  function Extend(n: Path, c: string): (r: Path)
    ensures Parent(r) == Some(n) && r != [] && r[|r| - 1] == c
  {
    n + [c]
  }

  /** The tables the template engine relies on: every name has its ancestors,
      and every aggregate lists its direct children, no more and no less. */
  ghost predicate ClosedTree(t: Table) {
    && [] in t
    && (forall n :: n in t ==> IsPath(n) && t[n].name == n && KindOk(t[n].kind))
    && (forall n, p :: n in t && p <= n ==> p in t)
    && (forall n :: n in t && t[n].kind.Children().Some? ==>
          (set c | c in t[n].kind.Children().value) == DirectChildren(t.Keys, n))
  }
}
