/** The template engine: a cursor walks a JSON value along the schema and writes
    it in place; then missing values are filled with defaults.

    `Walk`, `Updated` and `Filled` give the effect of a call as a function of
    the value at the cursor; the class performs it on the shared map. */
module Template {
  import opened Results
  import opened Names
  import opened Schema
  import opened Json
  import Order

  datatype Error =
    | NoRootField
    | NoSuchField
    | NoSuchArrayField
    | CannotAccess
    | TypeMismatch
    | OutOfRange
    | TooLong
    | WrongLength
    | NotAChoice
    | Unparsable
    | Missing
    | Panic

  /** What the engine takes from its surroundings: the snake-case conversion,
      the parsers of formatted strings and the clock. */
  datatype Env = Env(
    snake: string -> string,
    isDateTime: string -> bool,
    isIp: string -> bool,
    isUuid: string -> bool,
    now: string)

  /** A field list collected into a map by name; a later field replaces an earlier one. */
  function TableOf(parsed: seq<Field>): Table {
    if parsed == [] then map[] else map[parsed[0].name := parsed[0]] + TableOf(parsed[1..])
  }

  // ---------------------------------------------------------------- cursor

  datatype Entered = Inside(node: Value, base: Path) | Unknown | Refused(error: Error)

  /** One step of `try_get_field`: the schema name and the container grow as
      needed. An absent container entered by an index panics, because only
      `index` slots are allocated. */
  function Enter(t: Table, v: Value, base: Path, e: Entry): (r: Entered)
    ensures r.Inside? ==> Has(r.node, e) && r.base in t
  {
    match e
    case Index(i) =>
      if base !in t then Refused(NoSuchArrayField)
      else if v.Null? then Refused(Panic)
      else if !v.Arr? then Refused(CannotAccess)
      else if i < |v.items| then Inside(v, base)
      else Inside(Arr(v.items + seq(i + 1 - |v.items|, _ => Null)), base)
    case Key(k) =>
      if Extend(base, k) !in t then Unknown
      else if v.Null? then Inside(Obj(map[k := Null]), Extend(base, k))
      else if !v.Obj? then Refused(CannotAccess)
      else if k in v.fields then Inside(v, Extend(base, k))
      else Inside(Obj(v.fields[k := Null]), Extend(base, k))
  }

  datatype Walked = Found(tree: Value, base: Path) | Absent(tree: Value) | Failed(error: Error)

  /** The walk of `try_get_field` from a node whose schema name is `base`. */
  function Walk(t: Table, v: Value, base: Path, p: Cursor): (r: Walked)
    ensures r.Found? ==> Reaches(r.tree, p)
    ensures r.Found? && base in t ==> r.base in t
    decreases |p|
  {
    if p == [] then Found(v, base)
    else
      match Enter(t, v, base, p[0])
      case Unknown => Absent(v)
      case Refused(e) => Failed(e)
      case Inside(node, next) => Inward(node, p[0], Walk(t, At(node, p[0]), next, p[1..]))
  }

  /** The result of a walk that continued inside an entry of `v`. */
  function Inward(v: Value, e: Entry, w: Walked): Walked
    requires Has(v, e)
  {
    match w
    case Found(tree, base) => Found(Set(v, e, tree), base)
    case Absent(tree) => Absent(Set(v, e, tree))
    case Failed(error) => Failed(error)
  }

  /** The result of a walk that continued at the node under `p`. */
  function Graft(root: Value, p: Cursor, w: Walked): Walked
    requires Reaches(root, p)
  {
    match w
    case Found(tree, base) => Found(Put(root, p, tree), base)
    case Absent(tree) => Absent(Put(root, p, tree))
    case Failed(error) => Failed(error)
  }

  /** Walking along a concatenation is walking twice. */
  lemma {:induction false} WalkConcat(t: Table, v: Value, base: Path, p: Cursor, q: Cursor)
    ensures Walk(t, v, base, p + q) ==
            match Walk(t, v, base, p)
            case Found(tree, next) => Graft(tree, p, Walk(t, Get(tree, p), next, q))
            case other => other
    decreases |p|
  {
    if p == [] {
      assert p + q == q;
    } else {
      assert (p + q)[1..] == p[1..] + q;
      match Enter(t, v, base, p[0])
      case Inside(node, next) =>
        WalkConcat(t, At(node, p[0]), next, p[1..], q);
        WalkInward(node, p, Walk(t, At(node, p[0]), next, p[1..]));
      case _ =>
    }
  }

  lemma WalkInward(node: Value, p: Cursor, w: Walked)
    requires p != [] && Has(node, p[0])
    requires w.Found? ==> Reaches(w.tree, p[1..])
    ensures w.Found? ==>
              var outer := Inward(node, p[0], w);
              && Reaches(outer.tree, p) && Get(outer.tree, p) == Get(w.tree, p[1..])
              && forall x :: Put(outer.tree, p, x) == Set(node, p[0], Put(w.tree, p[1..], x))
  {
  }

  /** The walk along `p` is done: taking it again changes nothing. */
  predicate Settled(t: Table, root: Value, p: Cursor, base: Path) {
    Walk(t, root, [], p) == Found(root, base)
  }

  lemma EnterAgain(t: Table, v: Value, b: Path, e: Entry, x: Value)
    requires Enter(t, v, b, e).Inside?
    ensures var inside := Enter(t, v, b, e);
            Enter(t, Set(inside.node, e, x), b, e) == Inside(Set(inside.node, e, x), inside.base)
  {
  }

  lemma {:induction false} WalkAgain(t: Table, v: Value, b: Path, p: Cursor, x: Value)
    requires Walk(t, v, b, p).Found?
    ensures var w := Walk(t, v, b, p);
            Walk(t, Put(w.tree, p, x), b, p) == Found(Put(w.tree, p, x), w.base)
    decreases |p|
  {
    if p != [] {
      var inside := Enter(t, v, b, p[0]);
      var sub := Walk(t, At(inside.node, p[0]), inside.base, p[1..]);
      WalkAgain(t, At(inside.node, p[0]), inside.base, p[1..], x);
      WalkInward(inside.node, p, sub);
      EnterAgain(t, v, b, p[0], Put(sub.tree, p[1..], x));
    }
  }

  /** The schema name a cursor arrives at: its keys. */
  function KeysOf(p: Cursor): Path {
    if p == [] then []
    else match p[0] case Key(k) => [k] + KeysOf(p[1..]) case Index(_) => KeysOf(p[1..])
  }

  lemma {:induction false} WalkKeys(t: Table, v: Value, base: Path, p: Cursor)
    ensures Walk(t, v, base, p).Found? ==> Walk(t, v, base, p).base == base + KeysOf(p)
    decreases |p|
  {
    if p != [] {
      match Enter(t, v, base, p[0])
      case Inside(node, next) =>
        WalkKeys(t, At(node, p[0]), next, p[1..]);
      case _ =>
    }
  }

  /** A walk settles its cursor, and writing through the cursor keeps it settled. */
  lemma WalkSettles(t: Table, root: Value, p: Cursor)
    requires Walk(t, root, [], p).Found?
    ensures var w := Walk(t, root, [], p); Settled(t, w.tree, p, w.base)
  {
    var w := Walk(t, root, [], p);
    WalkAgain(t, root, [], p, Get(w.tree, p));
    PutGet(w.tree, p);
  }

  lemma PutSettled(t: Table, root: Value, p: Cursor, base: Path, x: Value)
    requires Settled(t, root, p, base)
    ensures Settled(t, Put(root, p, x), p, base)
  {
    WalkAgain(t, root, [], p, x);
  }

  /** From a settled cursor, one more entry enters only the node under it. */
  lemma WalkOneMore(t: Table, root: Value, p: Cursor, base: Path, e: Entry)
    requires Settled(t, root, p, base)
    ensures Walk(t, root, [], p + [e]) ==
            match Enter(t, Get(root, p), base, e)
            case Unknown => Absent(root)
            case Refused(error) => Failed(error)
            case Inside(node, next) => Found(Put(root, p, node), next)
  {
    WalkConcat(t, root, [], p, [e]);
    PutGet(root, p);
    match Enter(t, Get(root, p), base, e)
    case Inside(node, next) => SetSet(node, e, At(node, e), At(node, e));
    case _ =>
  }

  // ---------------------------------------------------------------- leaves

  /** `as_i64`. */
  function AsI64(v: Value): Option<I64> {
    if v.Num? && v.number.Whole? && -0x8000_0000_0000_0000 <= v.number.whole < 0x8000_0000_0000_0000
    then Some(v.number.whole)
    else None
  }

  /** `as_f64`; rounding is not modelled. */
  function AsF64(v: Value): Option<real> {
    if !v.Num? then None
    else match v.number case Whole(i) => Some(i as real) case Fraction(r) => Some(r)
  }

  /** A float printed and parsed back: an integer that fits 64 bits becomes one. */
  function Reprinted(r: real): (v: Value)
    ensures AsF64(v) == Some(r)
  {
    if r.Floor as real == r && -0x8000_0000_0000_0000 <= r.Floor < 0x1_0000_0000_0000_0000
    then Num(Whole(r.Floor))
    else Num(Fraction(r))
  }

  function OnlyStrings(items: seq<Value>): (r: seq<Value>)
    ensures forall x :: x in r <==> x in items && x.Str?
  {
    if items == [] then []
    else
      assert items == [items[0]] + items[1..];
      (if items[0].Str? then [items[0]] else []) + OnlyStrings(items[1..])
  }

  const TEXT_LIMIT := 0x1_0000_0000

  datatype Checked = Accepted(value: Value) | Mismatch | Rejected(error: Error)

  /** The value a leaf of this kind takes from `value`. */
  function Check(env: Env, kind: Kind, value: Value): Checked {
    match kind
    case Boolean(_) =>
      if value.Bool? then Accepted(value) else Mismatch
    case Integer(_, lo, hi) =>
      (match AsI64(value)
       case Some(i) => if AtLeast(i, lo) && AtMost(i, hi) then Accepted(value) else Rejected(OutOfRange)
       case None => Mismatch)
    case Number(_, lo, hi) =>
      (match AsF64(value)
       case Some(r) => if RealAtLeast(r, lo) && RealAtMost(r, hi) then Accepted(value) else Rejected(OutOfRange)
       case None => Mismatch)
    case String(_, k) =>
      if !value.Str? then Mismatch
      else if |value.text| >= TEXT_LIMIT then Rejected(TooLong)
      else if LengthFits(|value.text|, k) then Accepted(value) else Rejected(WrongLength)
    case OneOfStrings(_, choices) =>
      if !value.Str? then Mismatch
      else if value.text in choices then Accepted(value) else Rejected(NotAChoice)
    case DateTime(_) =>
      if !value.Str? then Mismatch
      else if env.isDateTime(value.text) then Accepted(value) else Rejected(Unparsable)
    case Ip =>
      if !value.Str? then Mismatch
      else if env.isIp(value.text) then Accepted(value) else Rejected(Unparsable)
    case Uuid =>
      if !value.Str? then Mismatch
      else if env.isUuid(value.text) then Accepted(value) else Rejected(Unparsable)
    case StringArray =>
      if value.Arr? then Accepted(Arr(OnlyStrings(value.items))) else Mismatch
    case _ => Mismatch
  }

  /** What filling puts in a null leaf. */
  function Default(env: Env, kind: Kind): Option<Value> {
    match kind
    case Boolean(Some(b)) => Some(Bool(b))
    case Integer(Some(i), _, _) => Some(Num(Whole(i)))
    case Number(Some(r), _, _) => Some(Reprinted(r))
    case String(Some(s), _) => Some(Str(s))
    case OneOfStrings(Some(s), _) => Some(Str(s))
    case DateTime(true) => Some(Str(env.now))
    case StringArray => Some(Arr([]))
    case _ => None
  }

  /** `assert_optional`: a mismatch is only forgiven to an optional null, which
      leaves the field as it is. */
  function Tolerated(v: Value, optional: bool, value: Value): Result<Value, Error> {
    if optional && value.Null? then Ok(v) else Err(TypeMismatch)
  }

  function UpdatedLeaf(env: Env, kind: Kind, v: Value, optional: bool, value: Value): Result<Value, Error> {
    match Check(env, kind, value)
    case Accepted(x) => Ok(x)
    case Mismatch => Tolerated(v, optional, value)
    case Rejected(e) => Err(e)
  }

  /** `assert_fill_optional` and the null test before it. */
  function FilledLeaf(env: Env, kind: Kind, v: Value, optional: bool): Result<Value, Error> {
    if !v.Null? then Ok(v)
    else if Default(env, kind).Some? then Ok(Default(env, kind).value)
    else if optional then Ok(v)
    else Err(Missing)
  }

  /** A field that holds one value, or a list of texts. */
  predicate IsLeaf(kind: Kind) {
    !kind.NoneKind? && !kind.Object? && !kind.ObjectArray?
  }

  /** The schema declares a value for a field that is not supplied. */
  predicate HasDefault(kind: Kind) {
    match kind
    case Boolean(d) => d.Some?
    case Integer(d, _, _) => d.Some?
    case Number(d, _, _) => d.Some?
    case String(d, _) => d.Some?
    case OneOfStrings(d, _) => d.Some?
    case DateTime(now) => now
    case StringArray => true
    case _ => false
  }

  /** The value is the declared one: a float without a fraction is written as an
      integer if it has 64 bits, a date-time is the clock's, and an array is empty. */
  predicate IsDeclared(env: Env, kind: Kind, v: Value)
    requires HasDefault(kind)
  {
    match kind
    case Boolean(d) => v.Bool? && (v.flag <==> d.value)
    case Integer(d, _, _) => v.Num? && v.number.Whole? && v.number.whole == d.value
    case Number(d, _, _) =>
      v.Num? && (match v.number
                 case Whole(i) => i as real == d.value && -0x8000_0000_0000_0000 <= i <= 0xFFFF_FFFF_FFFF_FFFF
                 case Fraction(r) =>
                   r == d.value
                   && (r.Floor as real < r || r.Floor < -0x8000_0000_0000_0000 || 0xFFFF_FFFF_FFFF_FFFF < r.Floor))
    case String(d, _) => v.Str? && v.text == d.value
    case OneOfStrings(d, _) => v.Str? && v.text == d.value
    case DateTime(_) => v.Str? && v.text == env.now
    case StringArray => v.Arr? && |v.items| == 0
    case _ => false
  }

  /** Filling a leaf: a value stays, and a null becomes the declared value; without
      one it stays null if the field may be, and is an error otherwise. */
  lemma FilledLeafExactly(env: Env, kind: Kind, v: Value, optional: bool)
    requires IsLeaf(kind)
    ensures !v.Null? ==> FilledLeaf(env, kind, v, optional) == Ok(v)
    ensures v.Null? && HasDefault(kind) ==>
              FilledLeaf(env, kind, v, optional).Ok? && IsDeclared(env, kind, FilledLeaf(env, kind, v, optional).value)
    ensures v.Null? && !HasDefault(kind) ==>
              FilledLeaf(env, kind, v, optional) == if optional then Ok(Null) else Err(Missing)
  {
  }

  // ---------------------------------------------------------------- update

  function Same(k: string): string { k }

  /** The keys of a JSON object in the order they are iterated. */
  function SortedKeys(keys: set<string>): (q: seq<string>)
    ensures forall k :: k in q <==> k in keys
    ensures forall i, j :: 0 <= i < j < |q| ==> q[i] != q[j]
    ensures forall i, j :: 0 <= i < j < |q| ==> Order.Less(q[i], q[j])
  {
    var q := Order.Sorted(keys, Same);
    assert forall k :: k in q <==> k in Order.Elements(q);
    Order.NoRepeats(q, Same);
    q
  }

  /** The node `v` with schema name `n` after it was updated with `value`. */
  function Updated(env: Env, t: Table, v: Value, n: Path, optional: bool, value: Value): Result<Value, Error>
    requires n in t
    decreases value, 1, 0
  {
    var field := t[n];
    var inherited := optional || field.optional;
    if field.kind.NoneKind? then Ok(Null)
    else if field.kind.Object? then
      if !value.Obj? then Tolerated(v, inherited, value)
      else if field.kind.objectKind.Dynamic? then Ok(value)
      else UpdatedFields(env, t, v, n, inherited, value, SortedKeys(value.fields.Keys))
    else if field.kind.ObjectArray? then
      if !value.Arr? then Tolerated(v, inherited, value)
      else UpdatedItems(env, t, v, n, inherited, value, 0)
    else UpdatedLeaf(env, field.kind, v, inherited, value)
  }

  function UpdatedFields(env: Env, t: Table, v: Value, n: Path, optional: bool, value: Value,
                         keys: seq<string>): Result<Value, Error>
    requires n in t && value.Obj? && forall k :: k in keys ==> k in value.fields
    decreases value, 0, |keys|
  {
    if keys == [] then Ok(v)
    else
      var e := Key(env.snake(keys[0]));
      match Enter(t, v, n, e)
      case Unknown => UpdatedFields(env, t, v, n, optional, value, keys[1..])
      case Refused(error) => Err(error)
      case Inside(node, next) =>
        match Updated(env, t, At(node, e), next, optional, value.fields[keys[0]])
        case Err(error) => Err(error)
        case Ok(x) => UpdatedFields(env, t, Set(node, e, x), n, optional, value, keys[1..])
  }

  function UpdatedItems(env: Env, t: Table, v: Value, n: Path, optional: bool, value: Value, i: nat): Result<Value,
                        Error>
    requires n in t && value.Arr? && i <= |value.items|
    decreases value, 0, |value.items| - i
  {
    if i == |value.items| then Ok(v)
    else
      match Enter(t, v, n, Index(i))
      case Refused(error) => Err(error)
      case Inside(node, next) =>
        match Updated(env, t, At(node, Index(i)), next, optional, value.items[i])
        case Err(error) => Err(error)
        case Ok(x) => UpdatedItems(env, t, Set(node, Index(i), x), n, optional, value, i + 1)
  }

  /** The map after the node under `p` was replaced. */
  function Replaced(root: Value, p: Cursor, v: Result<Value, Error>): Result<Value, Error>
    requires Reaches(root, p)
  {
    match v case Err(e) => Err(e) case Ok(x) => Ok(Put(root, p, x))
  }

  /** The map after `update_field_value_impl` at `name`. A name the schema does
      not know is ignored, although containers above it may have been made. */
  function UpdatedAt(env: Env, t: Table, root: Value, name: Cursor, optional: bool, value: Value): Result<Value, Error> {
    if [] !in t then Err(NoRootField) else UpdatedThere(env, t, Walk(t, root, [], name), name, optional, value)
  }

  function UpdatedThere(env: Env, t: Table, w: Walked, name: Cursor, optional: bool, value: Value): Result<Value, Error>
    requires w.Found? ==> w.base in t && Reaches(w.tree, name)
  {
    match w
    case Failed(e) => Err(e)
    case Absent(tree) => Ok(tree)
    case Found(tree, n) => Replaced(tree, name, Updated(env, t, Get(tree, name), n, optional, value))
  }

  // ---------------------------------------------------------------- filling

  type Outcome = Result<Value, Error>

  /** Filling with at most `depth` nested calls, and `None` when they do not suffice.
      Unlike `Filled` it is defined on every table: a child that is the root has an
      empty name, and an empty entry leaves the cursor where it is. */
  function FilledWithin(depth: nat, env: Env, t: Table, v: Value, n: Path, optional: bool,
                        isAtom: bool): Option<Outcome>
    requires n in t
    decreases depth, 1, 0
  {
    if depth == 0 then None
    else
      var field := t[n];
      var inherited := optional || field.optional;
      if field.kind.NoneKind? then Some(Ok(Null))
      else if field.kind.ObjectArray? && isAtom then
        if v.Null? then Some(Ok(Arr([])))
        else if v.Arr? then ItemsWithin(depth, env, t, v, n, inherited, 0)
        else Some(Ok(v))
      else if field.kind.Children().Some? then
        FieldsWithin(depth, env, t, if v.Null? then Obj(map[]) else v, n, inherited, field.kind.Children().value)
      else Some(FilledLeaf(env, field.kind, v, inherited))
  }

  function FieldsWithin(depth: nat, env: Env, t: Table, v: Value, n: Path, optional: bool,
                        children: seq<Path>): Option<Outcome>
    requires n in t && depth > 0
    decreases depth, 0, |children|
  {
    if children == [] then Some(Ok(v))
    else if children[0] == [] then
      match FilledWithin(depth - 1, env, t, v, n, optional, true)
      case None => None
      case Some(Err(e)) => Some(Err(e))
      case Some(Ok(x)) => FieldsWithin(depth, env, t, x, n, optional, children[1..])
    else
      match Enter(t, v, n, ChildKey(children[0]))
      case Unknown => Some(Err(NoSuchField))
      case Refused(error) => Some(Err(error))
      case Inside(node, next) =>
        match FilledWithin(depth - 1, env, t, At(node, ChildKey(children[0])), next, optional, true)
        case None => None
        case Some(Err(e)) => Some(Err(e))
        case Some(Ok(x)) => FieldsWithin(depth, env, t, Set(node, ChildKey(children[0]), x), n, optional, children[1..])
  }

  function ItemsWithin(depth: nat, env: Env, t: Table, v: Value, n: Path, optional: bool, i: nat): Option<Outcome>
    requires n in t && v.Arr? && i <= |v.items| && depth > 0
    decreases depth, 0, |v.items| - i
  {
    if i == |v.items| then Some(Ok(v))
    else
      match FilledWithin(depth - 1, env, t, v.items[i], n, optional, false)
      case None => None
      case Some(Err(e)) => Some(Err(e))
      case Some(Ok(x)) => ItemsWithin(depth, env, t, Arr(v.items[i := x]), n, optional, i + 1)
  }

  /** The map after `fill_default_value` at `name`, with at most `depth` nested calls. */
  function FilledWithinAt(depth: nat, env: Env, t: Table, root: Value, name: Cursor, optional: bool,
                          isAtom: bool): Option<Outcome>
  {
    if [] !in t then Some(Err(NoRootField))
    else
      match Walk(t, root, [], name)
      case Failed(e) => Some(Err(e))
      case Absent(_) => Some(Err(NoSuchField))
      case Found(tree, n) => ReplacedWithin(tree, name, FilledWithin(depth, env, t, Get(tree, name), n, optional, isAtom))
  }

  function ReplacedWithin(root: Value, p: Cursor, v: Option<Outcome>): Option<Outcome>
    requires Reaches(root, p)
  {
    if v.Some? then Some(Replaced(root, p, v.value)) else None
  }

  /** `convert_model_item`: update an empty map at the root, then fill it. */
  function ConvertedWithin(depth: nat, env: Env, t: Table, value: Value): Option<Outcome> {
    match UpdatedAt(env, t, Null, [], false, value)
    case Err(e) => Some(Err(e))
    case Ok(tree) => FilledWithinAt(depth, env, t, tree, [], false, true)
  }

  /** No field lists the root as a child. Filling a root that lists itself would
      visit it again and again. */
  predicate Descends(t: Table) {
    forall n :: n in t && t[n].kind.Children().Some? ==> [] !in t[n].kind.Children().value
  }

  ghost function Longest(names: set<Path>): (h: nat)
    ensures forall n :: n in names ==> |n| <= h
  {
    if names == {} then 0 else
      var n :| n in names;
      var h := Longest(names - {n});
      if |n| <= h then h else |n|
  }

  /** The schema depth that remains below a name. */
  ghost function Remaining(t: Table, n: Path): nat {
    if |n| <= Longest(t.Keys) then 1 + Longest(t.Keys) - |n| else 0
  }

  /** The node `v` with schema name `n` after its missing values were filled. */
  function Filled(env: Env, t: Table, v: Value, n: Path, optional: bool, isAtom: bool): Result<Value, Error>
    requires Descends(t) && n in t
    decreases Remaining(t, n), if isAtom then 3 else 1, 0
  {
    var field := t[n];
    var inherited := optional || field.optional;
    if field.kind.NoneKind? then Ok(Null)
    else if field.kind.ObjectArray? && isAtom then
      if v.Null? then Ok(Arr([]))
      else if v.Arr? then FilledItems(env, t, v, n, inherited, 0)
      else Ok(v)
    else if field.kind.Children().Some? then
      FilledFields(env, t, if v.Null? then Obj(map[]) else v, n, inherited, field.kind.Children().value)
    else FilledLeaf(env, field.kind, v, inherited)
  }

  /** The last component of a child's name, as `get_children_names` extracts it. */
  function ChildKey(child: Path): Entry
    requires child != []
  {
    Key(child[|child| - 1])
  }

  function FilledFields(env: Env, t: Table, v: Value, n: Path, optional: bool, children: seq<Path>): Result<Value,
                        Error>
    requires Descends(t) && n in t && [] !in children
    decreases Remaining(t, n), 0, |children|
  {
    if children == [] then Ok(v)
    else
      match Enter(t, v, n, ChildKey(children[0]))
      case Unknown => Err(NoSuchField)
      case Refused(error) => Err(error)
      case Inside(node, next) =>
        match Filled(env, t, At(node, ChildKey(children[0])), next, optional, true)
        case Err(error) => Err(error)
        case Ok(x) => FilledFields(env, t, Set(node, ChildKey(children[0]), x), n, optional, children[1..])
  }

  function FilledItems(env: Env, t: Table, v: Value, n: Path, optional: bool, i: nat): Result<Value, Error>
    requires Descends(t) && n in t && v.Arr? && i <= |v.items|
    decreases Remaining(t, n), 2, |v.items| - i
  {
    if i == |v.items| then Ok(v)
    else
      match Filled(env, t, v.items[i], n, optional, false)
      case Err(error) => Err(error)
      case Ok(x) => FilledItems(env, t, Arr(v.items[i := x]), n, optional, i + 1)
  }

  /** The map after `fill_default_value` at `name`. */
  function FilledAt(env: Env, t: Table, root: Value, name: Cursor, optional: bool, isAtom: bool): Result<Value, Error>
    requires Descends(t)
  {
    if [] !in t then Err(NoRootField)
    else
      match Walk(t, root, [], name)
      case Failed(e) => Err(e)
      case Absent(_) => Err(NoSuchField)
      case Found(tree, n) => Replaced(tree, name, Filled(env, t, Get(tree, name), n, optional, isAtom))
  }

  /** The same on tables where no field lists the root. */
  function Converted(env: Env, t: Table, value: Value): Result<Value, Error>
    requires Descends(t)
  {
    match UpdatedAt(env, t, Null, [], false, value)
    case Err(e) => Err(e)
    case Ok(tree) => FilledAt(env, t, tree, [], false, true)
  }
}
