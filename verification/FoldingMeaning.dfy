/** What scripts compute, in numbers, truth values and columns of them: an evaluator of
    its own, which shares no table with the compiler and the machine. */
module FoldingMeaning {
  import opened Results
  import opened Folding
  import opened FoldingTheorems
  import opened AssignmentTheorems

  // ------------------------------------------------------------------- cells

  /** An entry of a column; `Blank` is one without a value. */
  datatype Cell = Num(number: real) | Flag(flag: bool) | Blank

  /** A frame with its columns filled in. */
  datatype Grid = Grid(rows: nat, column: string -> seq<Cell>)

  function Cells(g: Grid, x: string): (c: seq<Cell>)
    ensures |c| == g.rows
  {
    seq(g.rows, i requires 0 <= i < g.rows => if i < |g.column(x)| then g.column(x)[i] else Blank)
  }

  function Repeated(rows: nat, c: Cell): seq<Cell> {
    seq(rows, _ => c)
  }

  function OnCell(op: UnaryOp, a: Cell): Cell {
    match (op, a)
    case (Neg, Num(x)) => Num(0.0 - x)
    case (Not, Flag(b)) => Flag(if b then false else true)
    case _ => Blank
  }

  function OnCells(op: BinaryOp, a: Cell, b: Cell): Cell {
    match (op, a, b)
    case (Add, Num(x), Num(y)) => Num(x + y)
    case (Sub, Num(x), Num(y)) => Num(x - y)
    case (Mul, Num(x), Num(y)) => Num(x * y)
    case (Div, Num(x), Num(y)) => if y == 0.0 then Blank else Num(x / y)
    case (Eq, Num(x), Num(y)) => Flag(x == y)
    case (Ne, Num(x), Num(y)) => Flag(x != y)
    case (Ge, Num(x), Num(y)) => Flag(y <= x)
    case (Gt, Num(x), Num(y)) => Flag(y < x)
    case (Le, Num(x), Num(y)) => Flag(x <= y)
    case (Lt, Num(x), Num(y)) => Flag(x < y)
    case (And, Flag(x), Flag(y)) => Flag(x && y)
    case (Or, Flag(x), Flag(y)) => Flag(x || y)
    case _ => Blank
  }

  /** The better of two cells; a cell that is no number does not count. */
  function Best(max: bool, a: Cell, b: Cell): Cell {
    if !a.Num? then if b.Num? then b else Blank
    else if !b.Num? then a
    else if max then if a.number <= b.number then b else a
    else if a.number <= b.number then a else b
  }

  function Extreme(max: bool, cells: seq<Cell>): Cell {
    if cells == [] then Blank else Best(max, cells[0], Extreme(max, cells[1..]))
  }

  /** The extremum is one of the numbers, and no number is beyond it. */
  lemma {:induction false} ExtremeExactly(max: bool, cells: seq<Cell>)
    ensures Extreme(max, cells) == Blank || (Extreme(max, cells).Num? && Extreme(max, cells) in cells)
    ensures Extreme(max, cells) == Blank <==> forall c :: c in cells ==> !c.Num?
    ensures forall c :: c in cells && c.Num? ==>
              if max then c.number <= Extreme(max, cells).number else Extreme(max, cells).number <= c.number
  {
    if cells != [] {
      assert cells == [cells[0]] + cells[1..];
      ExtremeExactly(max, cells[1..]);
    }
  }

  lemma {:induction false} ExtremeJoins(max: bool, a: seq<Cell>, b: seq<Cell>)
    ensures Extreme(max, a + b) == Best(max, Extreme(max, a), Extreme(max, b))
  {
    if a == [] {
      assert a + b == b;
      ExtremeExactly(max, b);
    } else {
      assert (a + b)[1..] == a[1..] + b;
      ExtremeJoins(max, a[1..], b);
      BestJoins(max, a[0], Extreme(max, a[1..]), Extreme(max, b));
    }
  }

  lemma BestJoins(max: bool, a: Cell, b: Cell, c: Cell)
    ensures Best(max, Best(max, a, b), c) == Best(max, a, Best(max, b, c))
    ensures Best(max, a, b) == Best(max, b, a)
  {
  }

  lemma {:induction false} ExtremeOfRepeated(max: bool, rows: nat, c: Cell)
    requires rows > 0 && (c.Num? || c == Blank)
    ensures Extreme(max, Repeated(rows, c)) == c
  {
    assert Repeated(rows, c)[1..] == Repeated(rows - 1, c);
    if rows > 1 {
      ExtremeOfRepeated(max, rows - 1, c);
    }
  }

  // ------------------------------------------------------------------ slices

  /** What a slice computes on the grid, cell by cell. */
  function Denote(g: Grid, s: Slice): (c: seq<Cell>)
    ensures |c| == g.rows
  {
    match s
    case Column(x) => Cells(g, x)
    case FlagLiteral(b) => Repeated(g.rows, Flag(b))
    case WholeLiteral(w) => Repeated(g.rows, Num(w as real))
    case FloatLiteral(r) => Repeated(g.rows, Num(r))
    case UnarySlice(op, src) => OnColumn(op, Denote(g, src))
    case BinarySlice(op, lhs, rhs) => OnColumns(op, Denote(g, lhs), Denote(g, rhs))
    case Reduced(op, src) => Repeated(g.rows, Extreme(op.Max?, Denote(g, src)))
    case When(condition, yes, no) => Chosen(Denote(g, condition), Denote(g, yes), Denote(g, no))
  }

  function OnColumn(op: UnaryOp, a: seq<Cell>): (c: seq<Cell>)
    ensures |c| == |a|
  {
    seq(|a|, i requires 0 <= i < |a| => OnCell(op, a[i]))
  }

  function OnColumns(op: BinaryOp, a: seq<Cell>, b: seq<Cell>): (c: seq<Cell>)
    requires |a| == |b|
    ensures |c| == |a|
  {
    seq(|a|, i requires 0 <= i < |a| => OnCells(op, a[i], b[i]))
  }

  function Chosen(condition: seq<Cell>, yes: seq<Cell>, no: seq<Cell>): (c: seq<Cell>)
    requires |condition| == |yes| == |no|
    ensures |c| == |yes|
  {
    seq(|yes|, i requires 0 <= i < |yes| => if condition[i] == Flag(true) then yes[i] else no[i])
  }

  // -------------------------------------------------------------- evaluation

  /** What an expression computes: a number, a truth value, or a column. */
  datatype Computed = Scalar(number: real) | Truth(flag: bool) | Cellwise(cells: seq<Cell>)

  /** The nearest 64-bit integer; of two the one farther from zero. */
  function Nearest(r: real): int {
    var w := if r >= 0.0 then (r + 0.5).Floor else 0 - (0.5 - r).Floor;
    if w > 0x7FFF_FFFF_FFFF_FFFF then 0x7FFF_FFFF_FFFF_FFFF
    else if w < -0x8000_0000_0000_0000 then -0x8000_0000_0000_0000
    else w
  }

  lemma NearestExactly(r: real)
    ensures -0x8000_0000_0000_0000 <= Nearest(r) <= 0x7FFF_FFFF_FFFF_FFFF
    ensures -9223372036854775808.0 <= r <= 9223372036854775807.0 ==>
              var w := Nearest(r) as real;
              && -0.5 <= r - w <= 0.5
              && (r - w == 0.5 ==> r < 0.0) && (w - r == 0.5 ==> r > 0.0)
    ensures r > 9223372036854775807.0 ==> Nearest(r) == 0x7FFF_FFFF_FFFF_FFFF
    ensures r < -9223372036854775808.0 ==> Nearest(r) == -0x8000_0000_0000_0000
  {
  }

  /** The column a value makes: a number is rounded. */
  function AsColumn(g: Grid, v: Computed): (c: seq<Cell>)
    requires v.Cellwise? ==> |v.cells| == g.rows
    ensures |c| == g.rows
  {
    match v
    case Scalar(r) => Repeated(g.rows, Num(Nearest(r) as real))
    case Truth(b) => Repeated(g.rows, Flag(b))
    case Cellwise(cells) => cells
  }

  predicate OnGrid(g: Grid, v: Computed) {
    v.Cellwise? ==> |v.cells| == g.rows
  }

  function Negated(v: Computed): Result<Computed, Error> {
    match v
    case Scalar(r) => Ok(Scalar(0.0 - r))
    case Truth(_) => Err(Unexpected)
    case Cellwise(cells) => Ok(Cellwise(OnColumn(Neg, cells)))
  }

  function Inverted(v: Computed): Result<Computed, Error> {
    match v
    case Scalar(_) => Err(Unexpected)
    case Truth(b) => Ok(Truth(if b then false else true))
    case Cellwise(cells) => Ok(Cellwise(OnColumn(Not, cells)))
  }

  /** Truth values are combined by `And` and `Or` only, numbers by everything else; next to
      a column a number is rounded, and dividing by zero is only an error between numbers. */
  function Combined(g: Grid, op: BinaryOp, v: Computed, w: Computed): Result<Computed, Error>
    requires OnGrid(g, v) && OnGrid(g, w)
  {
    if (op == And || op == Or) && (v.Scalar? || w.Scalar?) then Err(Unexpected)
    else if op != And && op != Or && (v.Truth? || w.Truth?) then Err(Unexpected)
    else if v.Cellwise? || w.Cellwise? then Ok(Cellwise(OnColumns(op, AsColumn(g, v), AsColumn(g, w))))
    else if op == Div && w.number == 0.0 then Err(DivisionByZero)
    else
      match OnCells(op, AsCell(v), AsCell(w))
      case Num(r) => Ok(Scalar(r))
      case Flag(b) => Ok(Truth(b))
      case Blank => Err(Unexpected)
  }

  function AsCell(v: Computed): Cell {
    match v case Scalar(r) => Num(r) case Truth(b) => Flag(b) case Cellwise(_) => Blank
  }

  /** The cells of all arguments. */
  function AllCells(vs: seq<Computed>): seq<Cell> {
    if vs == [] then [] else (if vs[0].Cellwise? then vs[0].cells else [AsCell(vs[0])]) + AllCells(vs[1..])
  }

  function CountColumns(vs: seq<Computed>): nat {
    if vs == [] then 0 else (if vs[0].Cellwise? then 1 else 0) + CountColumns(vs[1..])
  }

  /** The maximum or minimum: of one argument it is the argument, of numbers the extreme
      one, and of numbers and one column the extreme of all of them, in every row. */
  function Called(g: Grid, op: FunctionOp, vs: seq<Computed>): Result<Computed, Error> {
    if op.Custom? then Err(UnsupportedFunction)
    else if vs == [] then Err(NoArguments)
    else if exists i :: 0 <= i < |vs| && vs[i].Truth? then Err(Unexpected)
    else if CountColumns(vs) > 1 then Err(MultipleSlices)
    else if |vs| == 1 then Ok(vs[0])
    else
      var extreme := Extreme(op == Max, AllCells(vs));
      if CountColumns(vs) == 1 then Ok(Cellwise(Repeated(g.rows, extreme)))
      else if extreme.Num? then Ok(Scalar(extreme.number))
      else Err(NoArguments)
  }

  type Values = map<string, Computed>

  /** The value of an expression. A name holds what it was assigned, or else a column. */
  function ValueOf(p: bool, g: Grid, values: Values, e: Expr): (r: Result<Computed, Error>)
    requires forall x :: x in values ==> OnGrid(g, values[x])
    ensures r.Ok? ==> OnGrid(g, r.value)
    decreases e, 1, 0
  {
    match e
    case Const(r) => Ok(Scalar(r))
    case Var(x) =>
      if x in values then Ok(values[x]) else if p then Ok(Cellwise(Cells(g, x))) else Err(UndefinedName)
    case Unary(op, src) =>
      var v := ValueOf(p, g, values, src);
      if v.Err? then v else if op == Neg then Negated(v.value) else Inverted(v.value)
    case Binary(op, lhs, rhs) =>
      var v := ValueOf(p, g, values, lhs);
      if v.Err? then v
      else
        var w := ValueOf(p, g, values, rhs);
        if w.Err? then w else Combined(g, op, v.value, w.value)
    case Call(op, _) =>
      var vs := ValuesOf(p, g, values, e, 0);
      if vs.Err? then Err(vs.error)
      else
        assert forall v :: v in vs.value ==> OnGrid(g, v);
        Called(g, op, vs.value)
  }

  function ValuesOf(p: bool, g: Grid, values: Values, e: Expr, i: nat): (r: Result<seq<Computed>, Error>)
    requires e.Call? && i <= |e.args| && forall x :: x in values ==> OnGrid(g, values[x])
    ensures r.Ok? ==> forall v :: v in r.value ==> OnGrid(g, v)
    decreases e, 0, |e.args| - i
  {
    if i == |e.args| then Ok([])
    else
      var v := ValueOf(p, g, values, e.args[i]);
      if v.Err? then Err(v.error)
      else
        var rest := ValuesOf(p, g, values, e, i + 1);
        if rest.Err? then rest else Ok([v.value] + rest.value)
  }

  // ------------------------------------------- the machine's operations agree

  /** What the machine's value stands for on the grid. */
  function Shown(g: Grid, d: Datum): (v: Computed)
    ensures OnGrid(g, v)
  {
    match d
    case Feature(b) => Truth(b)
    case Number(r) => Scalar(r)
    case Lazy(s) => Cellwise(Denote(g, s))
  }

  function ShownAll(g: Grid, ds: seq<Datum>): (vs: seq<Computed>)
    ensures |vs| == |ds| && forall i :: 0 <= i < |ds| ==> vs[i] == Shown(g, ds[i])
  {
    if ds == [] then [] else [Shown(g, ds[0])] + ShownAll(g, ds[1..])
  }

  function ShownResult(g: Grid, r: Result<Datum, Error>): Result<Computed, Error> {
    match r case Ok(d) => Ok(Shown(g, d)) case Err(e) => Err(e)
  }

  lemma ColumnShows(g: Grid, d: Datum)
    ensures Denote(g, AsSlice(d)) == AsColumn(g, Shown(g, d))
  {
  }

  lemma UnaryShows(g: Grid, op: UnaryOp, d: Datum)
    ensures ShownResult(g, DoUnary(op, Known(d))) ==
            if op == Neg then Negated(Shown(g, d)) else Inverted(Shown(g, d))
  {
  }

  /** Between numbers the machine's table is the arithmetic of the reals. */
  lemma NumbersShow(g: Grid, op: BinaryOp, a: real, b: real)
    requires !IsLogic(op)
    ensures ShownResult(g, OnNumbers(op, a, b)) == Combined(g, op, Scalar(a), Scalar(b))
  {
    match op
    case Mul =>
      var product := a * b;
      assert OnNumbers(op, a, b) == Ok(Number(product));
      assert OnCells(op, Num(a), Num(b)) == Num(product);
    case _ =>
  }

  lemma ColumnsShow(g: Grid, op: BinaryOp, d: Datum, e: Datum)
    requires d.Lazy? || e.Lazy?
    ensures ShownResult(g, DoBinary(op, Known(d), Known(e))) == Combined(g, op, Shown(g, d), Shown(g, e))
  {
    ColumnShows(g, d);
    ColumnShows(g, e);
  }

  lemma BinaryShows(g: Grid, op: BinaryOp, d: Datum, e: Datum)
    ensures ShownResult(g, DoBinary(op, Known(d), Known(e))) == Combined(g, op, Shown(g, d), Shown(g, e))
  {
    if d.Lazy? || e.Lazy? {
      ColumnsShow(g, op, d, e);
    } else if d.Number? && e.Number? && !IsLogic(op) {
      NumbersShow(g, op, d.value, e.value);
    }
  }

  /** What may be an operand: a column always, a truth value of a logical operation only, a
      number of any other only; a definition without a value is undefined, or of the wrong kind. */
  lemma OperandExactly(logic: bool, s: Slot)
    ensures Operand(logic, s).Ok? <==> s.Known? && (s.datum.Lazy? || (s.datum.Feature? <==> logic))
    ensures Operand(logic, s).Ok? ==> Operand(logic, s).value == s.datum
    ensures Operand(logic, s) == Err(Undefined) <==> s == if logic then NoFeature else NoNumber
    ensures Operand(logic, s).Err? ==> Operand(logic, s).error in {Undefined, Unexpected}
  {
  }

  lemma {:induction false} OperandsShow(g: Grid, ds: seq<Datum>)
    ensures |AllKnown(ds)| == |ds|
    ensures AllOperands(AllKnown(ds)) == if exists d :: d in ds && d.Feature? then Err(Unexpected) else Ok(ds)
  {
    if ds == [] {
      assert AllKnown(ds) == [];
    } else {
      assert ds == [ds[0]] + ds[1..];
      OperandsShow(g, ds[1..]);
      assert AllKnown(ds)[1..] == AllKnown(ds[1..]);
    }
  }

  /** The cells that an accumulated value stands for. */
  ghost predicate Holds(g: Grid, op: FunctionOp, acc: Datum, vs: seq<Computed>)
    requires vs != []
  {
    if CountColumns(vs) == 0 then acc.Number? && Extreme(op.Max?, AllCells(vs)) == Num(acc.value)
    else
      && acc.Lazy?
      && (|vs| == 1 ==> Denote(g, acc.slice) == AllCells(vs))
      && (|vs| > 1 ==> Denote(g, acc.slice) == Repeated(g.rows, Extreme(op.Max?, AllCells(vs))))
  }

  /** Aggregating what was accumulated gives the extreme of everything so far. */
  lemma ReducedHolds(g: Grid, op: FunctionOp, acc: Datum, vs: seq<Computed>)
    requires vs != [] && CountColumns(vs) == 1 && Holds(g, op, acc, vs)
    ensures Denote(g, Reduced(op, acc.slice)) == Repeated(g.rows, Extreme(op.Max?, AllCells(vs)))
  {
    ExtremeExactly(op.Max?, AllCells(vs));
    if g.rows > 0 && |vs| > 1 {
      ExtremeOfRepeated(op.Max?, g.rows, Extreme(op.Max?, AllCells(vs)));
    }
  }

  /** A number meets an aggregated column. */
  lemma MetShows(g: Grid, op: FunctionOp, s: Slice, r: real, e: Cell)
    requires !op.Custom? && Denote(g, s) == Repeated(g.rows, e) && (e.Num? || e == Blank)
    ensures var b := FloatLiteral(r);
            Denote(g, When(BinarySlice(if op.Max? then Ge else Le, s, b), s, b)) == Repeated(g.rows, Best(op.Max?, Num(r), e))
  {
  }

  lemma CellsOfShown(g: Grid, ds: seq<Datum>)
    requires ds != []
    ensures ShownAll(g, ds)[1..] == ShownAll(g, ds[1..])
    ensures AllCells(ShownAll(g, ds)) ==
            (if ds[0].Lazy? then Denote(g, ds[0].slice) else [AsCell(Shown(g, ds[0]))]) + AllCells(ShownAll(g, ds[1..]))
    ensures CountColumns(ShownAll(g, ds)) == (if ds[0].Lazy? then 1 else 0) + CountColumns(ShownAll(g, ds[1..]))
  {
  }

  lemma OneCell(max: bool, c: Cell)
    ensures Extreme(max, [c]) == if c.Num? then c else Blank
  {
    assert [c][1..] == [];
  }

  /** A number meets what was accumulated. */
  lemma NumberMeets(g: Grid, op: FunctionOp, acc: Datum, r: real, ds: seq<Datum>)
    requires !op.Custom? && !acc.Feature? && ds != []
    requires CountColumns(ShownAll(g, ds)) <= 1 && Holds(g, op, acc, ShownAll(g, ds))
    ensures var extreme := Best(op.Max?, Num(r), Extreme(op.Max?, AllCells(ShownAll(g, ds))));
            match Accumulate(op, acc, Number(r))
            case Ok(Number(best)) => acc.Number? && extreme == Num(best)
            case Ok(Lazy(s)) => acc.Lazy? && Denote(g, s) == Repeated(g.rows, extreme)
            case _ => false
  {
    ExtremeExactly(op.Max?, AllCells(ShownAll(g, ds)));
    if acc.Lazy? {
      ReducedHolds(g, op, acc, ShownAll(g, ds));
      MetShows(g, op, Reduced(op, acc.slice), r, Extreme(op.Max?, AllCells(ShownAll(g, ds))));
    }
  }

  /** A column meets an accumulated number. */
  lemma ColumnMeets(g: Grid, op: FunctionOp, r: real, s: Slice)
    requires !op.Custom?
    ensures var met := Accumulate(op, Number(r), Lazy(s));
            && met.Ok? && met.value.Lazy?
            && Denote(g, met.value.slice) == Repeated(g.rows, Best(op.Max?, Extreme(op.Max?, Denote(g, s)), Num(r)))
  {
    ExtremeExactly(op.Max?, Denote(g, s));
    MetShows(g, op, Reduced(op, s), r, Extreme(op.Max?, Denote(g, s)));
    BestJoins(op.Max?, Extreme(op.Max?, Denote(g, s)), Num(r), Blank);
  }

  /** One more argument, before those accumulated so far. */
  lemma AccumulateShows(g: Grid, op: FunctionOp, acc: Datum, ds: seq<Datum>)
    requires !op.Custom? && !acc.Feature? && |ds| > 1 && !ds[0].Feature?
    requires CountColumns(ShownAll(g, ds)) <= 1 && Holds(g, op, acc, ShownAll(g, ds[1..]))
    ensures Accumulate(op, acc, ds[0]).Ok? && Holds(g, op, Accumulate(op, acc, ds[0]).value, ShownAll(g, ds))
  {
    var max, rest := op.Max?, AllCells(ShownAll(g, ds[1..]));
    CellsOfShown(g, ds);
    if ds[0].Number? {
      OneCell(max, Num(ds[0].value));
      ExtremeJoins(max, [Num(ds[0].value)], rest);
      NumberMeets(g, op, acc, ds[0].value, ds[1..]);
    } else {
      ExtremeJoins(max, Denote(g, ds[0].slice), rest);
      ColumnMeets(g, op, acc.value, ds[0].slice);
    }
  }

  lemma {:induction false} AccumulatedShows(g: Grid, op: FunctionOp, ds: seq<Datum>)
    requires !op.Custom? && ds != [] && forall d :: d in ds ==> !d.Feature?
    ensures var r, vs := Accumulated(op, ds), ShownAll(g, ds);
            if CountColumns(vs) > 1 then r == Err(MultipleSlices) else r.Ok? && Holds(g, op, r.value, vs)
    ensures Accumulated(op, ds).Ok? && Accumulated(op, ds).value.Lazy? ==> CountColumns(ShownAll(g, ds)) >= 1
    decreases |ds|
  {
    assert ds == [ds[0]] + ds[1..] && ds[0] in ds;
    CellsOfShown(g, ds);
    if |ds| == 1 {
      assert ds[1..] == [] && AllCells(ShownAll(g, ds)) == if ds[0].Lazy? then Denote(g, ds[0].slice) else [Num(ds[0].value)];
      if ds[0].Number? {
        OneCell(op.Max?, Num(ds[0].value));
      }
    } else {
      AccumulatedShows(g, op, ds[1..]);
      if CountColumns(ShownAll(g, ds)) <= 1 {
        assert Accumulated(op, ds[1..]).Ok? && !Accumulated(op, ds[1..]).value.Feature?;
        AccumulateShows(g, op, Accumulated(op, ds[1..]).value, ds);
      }
    }
  }

  lemma FunctionShows(g: Grid, op: FunctionOp, ds: seq<Datum>)
    ensures ShownResult(g, DoFunction(op, AllKnown(ds))) == Called(g, op, ShownAll(g, ds))
  {
    OperandsShow(g, ds);
    if d :| d in ds && d.Feature? {
      var i :| 0 <= i < |ds| && ds[i] == d;
      assert ShownAll(g, ds)[i].Truth?;
    } else if !op.Custom? && ds != [] {
      assert forall i :: 0 <= i < |ds| ==> ds[i] in ds && !ShownAll(g, ds)[i].Truth?;
      AccumulatedShows(g, op, ds);
      if |ds| > 1 && CountColumns(ShownAll(g, ds)) == 0 {
        assert op.Max? <==> op == Max;
      }
    }
  }

  // -------------------------------------------------------------- expressions

  function ShownValues(g: Grid, values: Env): (r: Values)
    ensures forall x :: x in r ==> OnGrid(g, r[x])
  {
    map x | x in values :: Shown(g, values[x])
  }

  /** The ordinary meaning of an expression, computed with slices, is its value. */
  lemma {:induction false} DirectShows(p: bool, g: Grid, values: Env, e: Expr)
    ensures ValueOf(p, g, ShownValues(g, values), e) == ShownResult(g, Direct(p, values, e))
    decreases e, 1, 0
  {
    match e
    case Unary(op, src) =>
      DirectShows(p, g, values, src);
      var d := Direct(p, values, src);
      if d.Ok? {
        UnaryShows(g, op, d.value);
      }
    case Binary(op, lhs, rhs) =>
      DirectShows(p, g, values, lhs);
      DirectShows(p, g, values, rhs);
      var d, f := Direct(p, values, lhs), Direct(p, values, rhs);
      if d.Ok? && f.Ok? {
        BinaryShows(g, op, d.value, f.value);
      }
    case Call(op, _) =>
      DirectArgsShow(p, g, values, e, 0);
      var ds := DirectArgs(p, values, e, 0);
      if ds.Ok? {
        FunctionShows(g, op, ds.value);
      }
    case _ =>
  }

  lemma {:induction false} DirectArgsShow(p: bool, g: Grid, values: Env, e: Expr, i: nat)
    requires e.Call? && i <= |e.args|
    ensures var ds := DirectArgs(p, values, e, i);
            ValuesOf(p, g, ShownValues(g, values), e, i) == if ds.Ok? then Ok(ShownAll(g, ds.value)) else Err(ds.error)
    decreases e, 0, |e.args| - i
  {
    if i < |e.args| {
      DirectShows(p, g, values, e.args[i]);
      DirectArgsShow(p, g, values, e, i + 1);
      var d, rest := Direct(p, values, e.args[i]), DirectArgs(p, values, e, i + 1);
      if d.Ok? && rest.Ok? {
        assert ([d.value] + rest.value)[1..] == rest.value;
      }
    }
  }

  lemma {:induction false} EvaluateNothing(s: Slice)
    ensures Evaluate(s, map[]) == s
  {
    match s
    case UnarySlice(_, src) => EvaluateNothing(src);
    case BinarySlice(_, lhs, rhs) =>
      EvaluateNothing(lhs);
      EvaluateNothing(rhs);
    case Reduced(_, src) => EvaluateNothing(src);
    case When(c, a, b) =>
      EvaluateNothing(c);
      EvaluateNothing(a);
      EvaluateNothing(b);
    case _ =>
  }

  lemma SeenAtFirst(env: Env)
    ensures Seen(env, map[]) == env
    ensures forall d :: Now(d, map[]) == d
  {
    forall d ensures Now(d, map[]) == d {
      if d.Lazy? {
        EvaluateNothing(d.slice);
      }
    }
  }

  /** The machine's own value of an expression, in the middle of any script, is what the
      separate evaluator computes on the grid of the day with the names as the machine
      holds them. */
  lemma EvalShows(p: bool, g: Grid, env: Env, e: Expr)
    ensures var r := Eval(p, Columns, env, e);
            ValueOf(p, g, ShownValues(g, env), e) == if r.Ok? then Ok(Shown(g, r.value.datum)) else Err(r.error)
  {
    SeenAtFirst(env);
    EvalIsSeen(p, env, map[], e);
    DirectShows(p, g, env, e);
  }

  // ------------------------------------------------------------------ scripts

  /** What a statement put into a column. */
  datatype Filling = Filling(column: string, cells: seq<Cell>)

  /** What a script puts into the columns, statement by statement. */
  function ScriptValue(p: bool, g: Grid, values: Values, script: seq<Assignment>): Result<seq<Filling>, Error>
    requires forall x :: x in values ==> OnGrid(g, values[x])
    decreases |script|
  {
    if script == [] then Ok([])
    else
      var v := ValueOf(p, g, values, script[0].source);
      if v.Err? then Err(v.error)
      else
        var rest := ScriptValue(p, g, values[script[0].target := v.value], script[1..]);
        if rest.Err? then rest else Ok([Filling(script[0].target, AsColumn(g, v.value))] + rest.value)
  }

  function Replaced(g: Grid, x: string, cells: seq<Cell>): (h: Grid)
    ensures h.rows == g.rows
  {
    Grid(g.rows, y => if y == x then cells else g.column(y))
  }

  /** The grid after the columns of a run were written one after the other. */
  function Applied(g: Grid, writes: seq<Write>): (h: Grid)
    ensures h.rows == g.rows
  {
    if writes == [] then g
    else
      var before := Applied(g, writes[..|writes| - 1]);
      var last := writes[|writes| - 1];
      Replaced(before, last.column, Denote(before, last.slice))
  }

  /** What the writes of a run put into the columns, each on the grid of its time. */
  function Fillings(g: Grid, writes: seq<Write>): seq<Filling> {
    if writes == [] then []
    else
      var last := writes[|writes| - 1];
      var before := writes[..|writes| - 1];
      Fillings(g, before) + [Filling(last.column, Denote(Applied(g, before), last.slice))]
  }

  /** The columns of `h` hold what `cols` says of the columns of `g`. */
  ghost predicate Follows(g: Grid, h: Grid, cols: Contents) {
    h.rows == g.rows && forall x :: Cells(h, x) == if x in cols then Denote(g, cols[x]) else Cells(g, x)
  }

  lemma {:induction false} SubstitutionShows(g: Grid, h: Grid, cols: Contents, s: Slice)
    requires Follows(g, h, cols)
    ensures Denote(h, s) == Denote(g, Evaluate(s, cols))
  {
    match s
    case UnarySlice(_, src) => SubstitutionShows(g, h, cols, src);
    case BinarySlice(_, lhs, rhs) =>
      SubstitutionShows(g, h, cols, lhs);
      SubstitutionShows(g, h, cols, rhs);
    case Reduced(_, src) => SubstitutionShows(g, h, cols, src);
    case When(c, a, b) =>
      SubstitutionShows(g, h, cols, c);
      SubstitutionShows(g, h, cols, a);
      SubstitutionShows(g, h, cols, b);
    case _ =>
  }

  function ShownWrites(g: Grid, writes: seq<Write>): (f: seq<Filling>)
    ensures |f| == |writes|
  {
    seq(|writes|, i requires 0 <= i < |writes| => Filling(writes[i].column, Denote(g, writes[i].slice)))
  }

  lemma ReplacedCells(g: Grid, x: string, cells: seq<Cell>, y: string)
    requires |cells| == g.rows
    ensures Cells(Replaced(g, x, cells), y) == if y == x then cells else Cells(g, y)
  {
  }

  /** One more column follows one more write. */
  lemma ReplacedFollows(g: Grid, h: Grid, cols: Contents, w: Write)
    requires Follows(g, h, cols)
    ensures Follows(g, Replaced(h, w.column, Denote(h, w.slice)), cols[w.column := Evaluate(w.slice, cols)])
  {
    SubstitutionShows(g, h, cols, w.slice);
    forall x ensures Cells(Replaced(h, w.column, Denote(h, w.slice)), x) ==
                     if x == w.column then Denote(h, w.slice) else Cells(h, x) {
      ReplacedCells(h, w.column, Denote(h, w.slice), x);
    }
  }

  lemma {:induction false} AppliedFollows(g: Grid, writes: seq<Write>)
    ensures Follows(g, Applied(g, writes), Written(writes))
    decreases |writes|
  {
    if writes != [] {
      var before, last := writes[..|writes| - 1], writes[|writes| - 1];
      AppliedFollows(g, before);
      ReplacedFollows(g, Applied(g, before), Written(before), last);
    }
  }

  /** What was written column by column is what its history says over the first grid. */
  lemma {:induction false} FillingsShow(g: Grid, writes: seq<Write>)
    ensures Fillings(g, writes) == ShownWrites(g, History(writes))
    decreases |writes|
  {
    if writes != [] {
      var before, last := writes[..|writes| - 1], writes[|writes| - 1];
      FillingsShow(g, before);
      AppliedFollows(g, before);
      SubstitutionShows(g, Applied(g, before), Written(before), last.slice);
    }
  }

  lemma AssignedShows(g: Grid, heap: Heap, x: string, d: Datum)
    ensures ShownValues(g, Assigned(heap, x, d).variables) == ShownValues(g, heap.variables)[x := Shown(g, d)]
    ensures ShownWrites(g, Assigned(heap, x, d).writes) ==
            ShownWrites(g, heap.writes) + [Filling(x, AsColumn(g, Shown(g, d)))]
  {
    ColumnShows(g, d);
  }

  /** The ordinary run went on from `before` and put `v` into the columns, or both failed. */
  ghost predicate Fills(g: Grid, before: Heap, end: Result<Heap, Error>, v: Result<seq<Filling>, Error>) {
    match end
    case Ok(heap) => v.Ok? && ShownWrites(g, heap.writes) == ShownWrites(g, before.writes) + v.value
    case Err(e) => v == Err(e)
  }

  lemma FillsOneMore(g: Grid, before: Heap, x: string, d: Datum, end: Result<Heap, Error>, v: Result<seq<Filling>, Error>)
    requires Fills(g, Assigned(before, x, d), end, v)
    ensures Fills(g, before, end, if v.Ok? then Ok([Filling(x, AsColumn(g, Shown(g, d)))] + v.value) else v)
  {
    AssignedShows(g, before, x, d);
    if v.Ok? {
      var first := [Filling(x, AsColumn(g, Shown(g, d)))];
      assert ShownWrites(g, before.writes) + (first + v.value) == ShownWrites(g, before.writes) + first + v.value;
    }
  }

  lemma {:induction false} ScriptShows(p: bool, g: Grid, heap: Heap, script: seq<Assignment>)
    ensures Fills(g, heap, DirectScript(p, heap, script), ScriptValue(p, g, ShownValues(g, heap.variables), script))
    decreases |script|
  {
    if script == [] {
      assert ShownWrites(g, heap.writes) + [] == ShownWrites(g, heap.writes);
    } else {
      DirectShows(p, g, heap.variables, script[0].source);
      var d, x := Direct(p, heap.variables, script[0].source), script[0].target;
      if d.Ok? {
        var next := Assigned(heap, x, d.value);
        ScriptShows(p, g, next, script[1..]);
        AssignedShows(g, heap, x, d.value);
        FillsOneMore(g, heap, x, d.value, DirectScript(p, next, script[1..]),
                     ScriptValue(p, g, ShownValues(g, next.variables), script[1..]));
      }
    }
  }

  // ---------------------------------------------------- scripts that call nothing empty

  /** Every function in the expression is called with an argument. */
  predicate Applies(e: Expr) {
    match e
    case Unary(_, src) => Applies(src)
    case Binary(_, lhs, rhs) => Applies(lhs) && Applies(rhs)
    case Call(_, args) => args != [] && forall a :: a in args ==> Applies(a)
    case _ => true
  }

  predicate NoEmptyCalls(code: seq<Instruction>) {
    forall i :: 0 <= i < |code| ==> !IsEmptyCall(code[i])
  }

  lemma {:induction false} ExprNotEmpty(p: bool, code: seq<Instruction>, e: Expr)
    requires Applies(e) && NoEmptyCalls(code) && CompileExpr(p, code, e).Ok?
    ensures NoEmptyCalls(CompileExpr(p, code, e).value.code)
    decreases e, 1, 0
  {
    match e
    case Unary(_, src) => ExprNotEmpty(p, code, src);
    case Binary(_, lhs, rhs) =>
      ExprNotEmpty(p, code, lhs);
      ExprNotEmpty(p, CompileExpr(p, code, lhs).value.code, rhs);
    case Call(_, _) =>
      ArgsNotEmpty(p, code, e, 0);
      CompileArgsExtends(p, code, e, 0);
    case _ =>
  }

  lemma {:induction false} ArgsNotEmpty(p: bool, code: seq<Instruction>, e: Expr, i: nat)
    requires e.Call? && i <= |e.args| && Applies(e) && NoEmptyCalls(code) && CompileArgs(p, code, e, i).Ok?
    ensures NoEmptyCalls(CompileArgs(p, code, e, i).value.0)
    decreases e, 0, |e.args| - i
  {
    if i < |e.args| {
      ExprNotEmpty(p, code, e.args[i]);
      ArgsNotEmpty(p, CompileExpr(p, code, e.args[i]).value.code, e, i + 1);
    }
  }

  lemma {:induction false} ScriptNotEmpty(p: bool, code: seq<Instruction>, script: seq<Assignment>)
    requires NoEmptyCalls(code) && CompileScript(p, code, script).Ok? && forall a :: a in script ==> Applies(a.source)
    ensures NoEmptyCalls(CompileScript(p, code, script).value)
    decreases |script|
  {
    if script != [] {
      assert script[0] in script;
      ExprNotEmpty(p, code, script[0].source);
      var c := CompileExpr(p, code, script[0].source).value;
      ScriptNotEmpty(p, c.code + [Instruction(Some(script[0].target), FromValue(c.value))], script[1..]);
    }
  }

  // ------------------------------------------------------------- the theorems

  /** Compiled and run, the script puts into every column of the frame what it computes; when
      it does not, its evaluation fails too, as the run does. */
  ghost predicate Computes(p: bool, script: seq<Assignment>, g: Grid) {
    var compiled, v := CompileScript(p, [], script), ScriptValue(p, g, map[], script);
    if compiled.Err? then v.Err?
    else
      match Run(Columns, compiled.value)
      case Err(e) => v == Err(e)
      case Ok(c) => v == Ok(Fillings(g, c.writes))
  }

  /** Every script that reads no stale name and calls no function without arguments
      computes its value, whatever the frame holds. */
  lemma FreshScriptsCompute(p: bool, script: seq<Assignment>, g: Grid)
    requires ReadsFresh(p, BEGIN, script) && forall a :: a in script ==> Applies(a.source)
    ensures Computes(p, script, g)
  {
    FoldingIsOrdinary(p, script);
    ScriptShows(p, g, Heap(map[], []), script);
    assert ShownValues(g, map[]) == map[] && ShownWrites(g, []) == [];
    var compiled, v := CompileScript(p, [], script), ScriptValue(p, g, map[], script);
    if compiled.Ok? {
      ScriptNotEmpty(p, [], script);
      var run := Run(Columns, compiled.value);
      if run.Ok? {
        FillingsShow(g, run.value.writes);
        assert [] + v.value == v.value;
      }
    }
  }

  lemma {:induction false} ReadingNothingIsFresh(p: bool, st: State, script: seq<Assignment>)
    requires forall a, x :: a in script ==> !Reads(a.source, x)
    ensures ReadsFresh(p, st, script)
    decreases |script|
  {
    if script != [] {
      assert script == [script[0]] + script[1..] && script[0] in script;
      var a, d := Eval(p, Columns, st.env, script[0].source), Direct(p, st.ordinary.variables, script[0].source);
      if a.Ok? && d.Ok? {
        ReadingNothingIsFresh(p, Next(st, script[0].target, a.value, d.value), script[1..]);
      }
    }
  }

  /** In particular every script of constants: the folded value is written, or the folding
      fails where the arithmetic does. */
  lemma ConstantScriptsCompute(p: bool, script: seq<Assignment>, g: Grid)
    requires forall a :: a in script ==> Applies(a.source)
    requires forall a, x :: a in script ==> !Reads(a.source, x)
    ensures Computes(p, script, g)
  {
    ReadingNothingIsFresh(p, BEGIN, script);
    FreshScriptsCompute(p, script, g);
  }

  /** Five minus three is two. */
  lemma FiveMinusThree(p: bool, x: string)
    ensures var script := [Assignment(x, Binary(Sub, Const(5.0), Const(3.0)))];
            var compiled := CompileScript(p, [], script);
            && compiled.Ok? && Run(Columns, compiled.value).Ok?
            && Run(Columns, compiled.value).value.writes == [Write(x, WholeLiteral(2))]
  {
    var ins := Instruction(Some(x), DefineNumber(Some(2.0)));
    assert CompileExpr(p, [], Binary(Sub, Const(5.0), Const(3.0))) == Ok(Compiled([], OfNumber(2.0)));
    assert [] + [ins] == [ins] && [ins][..0] == [];
    assert Run(Columns, [ins]) == Continued(Run(Columns, []), Columns, ins);
    assert Round(2.0) == 2;
  }
}
