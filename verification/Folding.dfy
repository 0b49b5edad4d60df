/** The lazy kubegraph machine: a script is compiled into instructions, with
    constants folded on the way, and the instructions are executed later, over the
    columns of a lazy data frame.

    A column is not computed when an instruction is executed: operations on it only
    build an expression over the frame's columns, a slice, and each named write of
    the script adds one column to the frame. */
module Folding {
  import opened Results

  datatype UnaryOp = Neg | Not

  datatype BinaryOp = Add | Sub | Mul | Div | Eq | Ne | Ge | Gt | Le | Lt | And | Or

  datatype FunctionOp = Max | Min | Custom(name: string)

  // --------------------------------------------------------------- the frame

  /** An expression over the columns of a frame. `Reduced` aggregates a whole column. */
  datatype Slice =
    | Column(name: string)
    | FlagLiteral(flag: bool)
    | WholeLiteral(whole: int)
    | FloatLiteral(float: real)
    | UnarySlice(uop: UnaryOp, src: Slice)
    | BinarySlice(bop: BinaryOp, lhs: Slice, rhs: Slice)
    | Reduced(fop: FunctionOp, column: Slice)
    | When(condition: Slice, yes: Slice, no: Slice)

  /** What a variable holds: a scalar, or a slice. */
  datatype Datum = Feature(flag: bool) | Number(value: real) | Lazy(slice: Slice)

  /** `with_column`: the slice, evaluated on the frame so far, becomes the column. */
  datatype Write = Write(column: string, slice: Slice)

  /** An empty frame has no columns to read or write. */
  datatype Frame = Empty | Columns

  datatype Error =
    | Unexpected
    | Undefined
    | DivisionByZero
    | NoArguments
    | MultipleSlices
    | UnsupportedFunction
    | UndefinedName
    | IllegalAccess
    | EmptyFrame

  /** `round`: to the nearest integer, half-way cases away from zero. */
  function Round(r: real): int {
    if r < 0.0 then -((-r + 0.5).Floor) else (r + 0.5).Floor
  }

  /** `as i64` of a float saturates. */
  function ToI64(i: int): int {
    if i < -0x8000_0000_0000_0000 then -0x8000_0000_0000_0000
    else if i > 0x7fff_ffff_ffff_ffff then 0x7fff_ffff_ffff_ffff
    else i
  }

  /** `into_polars`: next to a slice, and in a column, a number is a rounded integer. */
  function AsSlice(d: Datum): Slice {
    match d
    case Feature(b) => FlagLiteral(b)
    case Number(r) => WholeLiteral(ToI64(Round(r)))
    case Lazy(s) => s
  }

  // --------------------------------------------------------------- the source

  datatype Expr =
    | Const(number: real)
    | Var(name: string)
    | Unary(uop: UnaryOp, src: Expr)
    | Binary(bop: BinaryOp, lhs: Expr, rhs: Expr)
    | Call(fop: FunctionOp, args: seq<Expr>)

  datatype Assignment = Assignment(target: string, source: Expr)

  // --------------------------------------------------------------- the target

  datatype Value = OfFeature(flag: bool) | OfNumber(number: real) | Variable(index: nat)

  datatype Stmt =
    | Identity(index: nat)
    | DefineFeature(feature: Option<bool>)
    | DefineNumber(number: Option<real>)
    | BinaryStmt(lhs: Value, rhs: Value, bop: BinaryOp)
    | UnaryStmt(src: Value, uop: UnaryOp)
    | FunctionStmt(fop: FunctionOp, args: seq<Value>)

  datatype Instruction = Instruction(name: Option<string>, stmt: Stmt)

  function FromValue(v: Value): Stmt {
    match v
    case OfFeature(b) => DefineFeature(Some(b))
    case OfNumber(r) => DefineNumber(Some(r))
    case Variable(i) => Identity(i)
  }

  /** `to_value`. */
  function ToValue(s: Stmt): Option<Value> {
    match s
    case Identity(i) => Some(Variable(i))
    case DefineFeature(Some(b)) => Some(OfFeature(b))
    case DefineNumber(Some(r)) => Some(OfNumber(r))
    case _ => None
  }

  // ------------------------------------------------- operations on scalars

  predicate IsLogic(op: BinaryOp) {
    op == And || op == Or
  }

  function OnFeatures(op: BinaryOp, a: bool, b: bool): Datum
    requires IsLogic(op)
  {
    if op == And then Feature(a && b) else Feature(a || b)
  }

  function OnNumbers(op: BinaryOp, a: real, b: real): Result<Datum, Error>
    requires !IsLogic(op)
  {
    match op
    case Add => Ok(Number(a + b))
    case Sub => Ok(Number(a - b))
    case Mul => Ok(Number(a * b))
    case Div => if b != 0.0 then Ok(Number(a / b)) else Err(DivisionByZero)
    case Eq => Ok(Feature(a == b))
    case Ne => Ok(Feature(a != b))
    case Ge => Ok(Feature(a >= b))
    case Gt => Ok(Feature(a > b))
    case Le => Ok(Feature(a <= b))
    case Lt => Ok(Feature(a < b))
  }

  function Better(op: FunctionOp, a: real, b: real): real
    requires !op.Custom?
  {
    if op.Max? then (if a > b then a else b) else (if a < b then a else b)
  }

  function Extremum(op: FunctionOp, numbers: seq<real>): real
    requires numbers != [] && !op.Custom?
  {
    if |numbers| == 1 then numbers[0] else Better(op, numbers[0], Extremum(op, numbers[1..]))
  }

  // ------------------------------------------------ folding: `Value` operators

  function ToFeature(v: Value): Result<Option<bool>, Error> {
    match v
    case OfFeature(b) => Ok(Some(b))
    case OfNumber(_) => Err(Unexpected)
    case Variable(_) => Ok(None)
  }

  function ToNumber(v: Value): Result<Option<real>, Error> {
    match v
    case OfFeature(_) => Err(Unexpected)
    case OfNumber(r) => Ok(Some(r))
    case Variable(_) => Ok(None)
  }

  function Define(d: Datum): Stmt
    requires !d.Lazy?
  {
    match d
    case Feature(b) => DefineFeature(Some(b))
    case Number(r) => DefineNumber(Some(r))
  }

  function FoldUnary(op: UnaryOp, v: Value): Result<Stmt, Error> {
    match op
    case Neg =>
      (match ToNumber(v)
       case Err(e) => Err(e)
       case Ok(Some(r)) => Ok(DefineNumber(Some(-r)))
       case Ok(None) => Ok(UnaryStmt(v, op)))
    case Not =>
      (match ToFeature(v)
       case Err(e) => Err(e)
       case Ok(Some(b)) => Ok(DefineFeature(Some(!b)))
       case Ok(None) => Ok(UnaryStmt(v, op)))
  }

  function FoldBinary(op: BinaryOp, lhs: Value, rhs: Value): Result<Stmt, Error> {
    if IsLogic(op) then
      var a, b := ToFeature(lhs), ToFeature(rhs);
      if a.Err? then Err(a.error)
      else if b.Err? then Err(b.error)
      else if a.value.Some? && b.value.Some? then Ok(Define(OnFeatures(op, a.value.value, b.value.value)))
      else Ok(BinaryStmt(lhs, rhs, op))
    else
      var a, b := ToNumber(lhs), ToNumber(rhs);
      if a.Err? then Err(a.error)
      else if b.Err? then Err(b.error)
      else if a.value.Some? && b.value.Some? then
        var r := OnNumbers(op, a.value.value, b.value.value);
        if r.Err? then Err(r.error) else Ok(Define(r.value))
      else Ok(BinaryStmt(lhs, rhs, op))
  }

  function Numbers(vs: seq<Value>): seq<real>
    requires forall v :: v in vs ==> v.OfNumber?
  {
    if vs == [] then [] else [vs[0].number] + Numbers(vs[1..])
  }

  /** With no arguments at all this defines an undefined number. */
  function FoldFunction(op: FunctionOp, args: seq<Value>): Result<Stmt, Error> {
    if op.Custom? then Err(UnsupportedFunction)
    else if forall v :: v in args ==> v.OfNumber? then
      if args == [] then Ok(DefineNumber(None)) else Ok(DefineNumber(Some(Extremum(op, Numbers(args)))))
    else Ok(FunctionStmt(op, args))
  }

  // ------------------------------------------------------------- compilation

  /** The first instruction of that name. */
  function Find(code: seq<Instruction>, name: string): (r: Option<nat>)
    ensures r.Some? ==> r.value < |code| && code[r.value].name == Some(name)
    ensures r.Some? ==> forall i :: 0 <= i < r.value ==> code[i].name != Some(name)
    ensures r.None? ==> forall i :: 0 <= i < |code| ==> code[i].name != Some(name)
  {
    if code == [] then None
    else
      var r := Find(code[..|code| - 1], name);
      if r.Some? then r
      else if code[|code| - 1].name == Some(name) then Some(|code| - 1)
      else None
  }

  datatype Compiled = Compiled(code: seq<Instruction>, value: Value)

  function Finish(code: seq<Instruction>, stmt: Stmt): Compiled {
    match ToValue(stmt)
    case Some(v) => Compiled(code, v)
    case None => Compiled(code + [Instruction(None, stmt)], Variable(|code|))
  }

  function FinishAll(code: seq<Instruction>, stmt: Result<Stmt, Error>): Result<Compiled, Error> {
    match stmt
    case Err(e) => Err(e)
    case Ok(s) => Ok(Finish(code, s))
  }

  /** `execute_expr`; `placeholders` says whether unknown names are registered. */
  function CompileExpr(placeholders: bool, code: seq<Instruction>, e: Expr): Result<Compiled, Error>
    decreases e, 1, 0
  {
    match e
    case Const(r) => Ok(Compiled(code, OfNumber(r)))
    case Var(x) =>
      (match Find(code, x)
       case Some(i) =>
         var v := ToValue(code[i].stmt);
         Ok(Compiled(code, if v.Some? then v.value else Variable(i)))
       case None =>
         if placeholders then Ok(Compiled(code + [Instruction(Some(x), DefineNumber(None))], Variable(|code|)))
         else Err(UndefinedName))
    case Unary(op, src) =>
      (match CompileExpr(placeholders, code, src)
       case Err(er) => Err(er)
       case Ok(c) => FinishAll(c.code, FoldUnary(op, c.value)))
    case Binary(op, lhs, rhs) =>
      (match CompileExpr(placeholders, code, lhs)
       case Err(er) => Err(er)
       case Ok(l) =>
         match CompileExpr(placeholders, l.code, rhs)
         case Err(er) => Err(er)
         case Ok(r) => FinishAll(r.code, FoldBinary(op, l.value, r.value)))
    case Call(op, _) =>
      (match CompileArgs(placeholders, code, e, 0)
       case Err(er) => Err(er)
       case Ok(c) => FinishAll(c.0, FoldFunction(op, c.1)))
  }

  /** The arguments of a call from the `i`-th on. */
  function CompileArgs(placeholders: bool, code: seq<Instruction>, e: Expr,
                       i: nat): Result<(seq<Instruction>, seq<Value>), Error>
    requires e.Call? && i <= |e.args|
    decreases e, 0, |e.args| - i
  {
    if i == |e.args| then Ok((code, []))
    else
      match CompileExpr(placeholders, code, e.args[i])
      case Err(er) => Err(er)
      case Ok(c) =>
        match CompileArgs(placeholders, c.code, e, i + 1)
        case Err(er) => Err(er)
        case Ok(rest) => Ok((rest.0, [c.value] + rest.1))
  }

  function CompileScript(placeholders: bool, code: seq<Instruction>,
                         script: seq<Assignment>): Result<seq<Instruction>, Error>
    decreases |script|
  {
    if script == [] then Ok(code)
    else
      match CompileExpr(placeholders, code, script[0].source)
      case Err(e) => Err(e)
      case Ok(c) => CompileScript(placeholders, c.code + [Instruction(Some(script[0].target), FromValue(c.value))], script[1..])
  }

  // --------------------------------------------------------------- execution

  /** A stack entry: a value, or a definition without one. */
  datatype Slot = Known(datum: Datum) | NoFeature | NoNumber

  /** The operand of a logical operation, or of one on numbers: a slice passes for both. */
  function Operand(logic: bool, s: Slot): Result<Datum, Error> {
    match s
    case Known(Lazy(_)) => Ok(s.datum)
    case Known(Feature(_)) => if logic then Ok(s.datum) else Err(Unexpected)
    case Known(Number(_)) => if logic then Err(Unexpected) else Ok(s.datum)
    case NoFeature => if logic then Err(Undefined) else Err(Unexpected)
    case NoNumber => if logic then Err(Unexpected) else Err(Undefined)
  }

  function DoUnary(op: UnaryOp, s: Slot): Result<Datum, Error> {
    match Operand(op == Not, s)
    case Err(e) => Err(e)
    case Ok(Lazy(slice)) => Ok(Lazy(UnarySlice(op, slice)))
    case Ok(Feature(b)) => Ok(Feature(!b))
    case Ok(Number(r)) => Ok(Number(-r))
  }

  /** Dividing by a slice never fails: it is not computed yet. */
  function DoBinary(op: BinaryOp, a: Slot, b: Slot): Result<Datum, Error> {
    var x, y := Operand(IsLogic(op), a), Operand(IsLogic(op), b);
    if x.Err? then x
    else if y.Err? then y
    else if x.value.Lazy? || y.value.Lazy? then Ok(Lazy(BinarySlice(op, AsSlice(x.value), AsSlice(y.value))))
    else if IsLogic(op) then Ok(OnFeatures(op, x.value.flag, y.value.flag))
    else OnNumbers(op, x.value.value, y.value.value)
  }

  function AllOperands(slots: seq<Slot>): Result<seq<Datum>, Error> {
    if slots == [] then Ok([])
    else
      var first := Operand(false, slots[0]);
      if first.Err? then Err(first.error)
      else
        var rest := AllOperands(slots[1..]);
        if rest.Err? then rest else Ok([first.value] + rest.value)
  }

  /** The accumulator, which starts at the last argument, meets one more argument. A
      slice that meets a number is aggregated first. */
  function Accumulate(op: FunctionOp, acc: Datum, arg: Datum): Result<Datum, Error>
    requires !op.Custom? && !acc.Feature? && !arg.Feature?
  {
    if acc.Lazy? && arg.Lazy? then Err(MultipleSlices)
    else if acc.Number? && arg.Number? then Ok(Number(Better(op, arg.value, acc.value)))
    else
      var a := Reduced(op, if acc.Lazy? then acc.slice else arg.slice);
      var b := FloatLiteral(if acc.Lazy? then arg.value else acc.value);
      Ok(Lazy(When(BinarySlice(if op.Max? then Ge else Le, a, b), a, b)))
  }

  function Accumulated(op: FunctionOp, args: seq<Datum>): (r: Result<Datum, Error>)
    requires args != [] && !op.Custom? && forall a :: a in args ==> !a.Feature?
    ensures r.Ok? ==> !r.value.Feature?
  {
    if |args| == 1 then Ok(args[0])
    else
      match Accumulated(op, args[1..])
      case Err(e) => Err(e)
      case Ok(acc) => Accumulate(op, acc, args[0])
  }

  /** The tables of the machine over features, numbers and slices. */
  function DoFunction(op: FunctionOp, slots: seq<Slot>): Result<Datum, Error> {
    if op.Custom? then Err(UnsupportedFunction)
    else if slots == [] then Err(NoArguments)
    else
      match AllOperands(slots)
      case Err(e) => Err(e)
      case Ok(args) =>
        OperandsAreNoFeatures(slots);
        Accumulated(op, args)
  }

  lemma {:induction false} OperandsAreNoFeatures(slots: seq<Slot>)
    requires AllOperands(slots).Ok?
    ensures |AllOperands(slots).value| == |slots|
    ensures forall a :: a in AllOperands(slots).value ==> !a.Feature?
  {
    if slots != [] {
      OperandsAreNoFeatures(slots[1..]);
    }
  }

  /** `variables` holds what each name was assigned last. */
  datatype Context = Context(stack: seq<Slot>, variables: map<string, Datum>, writes: seq<Write>)

  /** `fetch`. */
  function Fetch(stack: seq<Slot>, v: Value): Result<Slot, Error> {
    match v
    case OfFeature(b) => Ok(Known(Feature(b)))
    case OfNumber(r) => Ok(Known(Number(r)))
    case Variable(i) => if i < |stack| then Ok(stack[i]) else Err(IllegalAccess)
  }

  function FetchAll(stack: seq<Slot>, vs: seq<Value>): Result<seq<Slot>, Error> {
    if vs == [] then Ok([])
    else
      var first := Fetch(stack, vs[0]);
      if first.Err? then Err(first.error)
      else
        var rest := FetchAll(stack, vs[1..]);
        if rest.Err? then rest else Ok([first.value] + rest.value)
  }

  function Lift(r: Result<Datum, Error>): Result<Slot, Error> {
    match r case Ok(d) => Ok(Known(d)) case Err(e) => Err(e)
  }

  function Compute(stack: seq<Slot>, s: Stmt): Result<Slot, Error> {
    match s
    case Identity(i) => Fetch(stack, Variable(i))
    case DefineFeature(b) => Ok(if b.Some? then Known(Feature(b.value)) else NoFeature)
    case DefineNumber(r) => Ok(if r.Some? then Known(Number(r.value)) else NoNumber)
    case BinaryStmt(lhs, rhs, op) =>
      var a, b := Fetch(stack, lhs), Fetch(stack, rhs);
      if a.Err? then a else if b.Err? then b else Lift(DoBinary(op, a.value, b.value))
    case UnaryStmt(src, op) =>
      var a := Fetch(stack, src);
      if a.Err? then a else Lift(DoUnary(op, a.value))
    case FunctionStmt(op, args) =>
      var slots := FetchAll(stack, args);
      if slots.Err? then Err(slots.error) else Lift(DoFunction(op, slots.value))
  }

  /** `get_column`. */
  function ColumnOf(frame: Frame, name: string): Result<Datum, Error> {
    if frame == Empty then Err(EmptyFrame) else Ok(Lazy(Column(name)))
  }

  /** The heap answers a named definition without a value: with the variable of that
      name, or with the column. */
  function Answer(frame: Frame, variables: map<string, Datum>, name: string, slot: Slot): Result<Datum, Error> {
    if name !in variables then ColumnOf(frame, name)
    else if slot.NoFeature? && variables[name].Number? then Err(Unexpected)
    else if slot.NoNumber? && variables[name].Feature? then Err(Unexpected)
    else Ok(variables[name])
  }

  /** One round of the loop in `call`. */
  function Execute(c: Context, frame: Frame, ins: Instruction): Result<Context, Error> {
    match Compute(c.stack, ins.stmt)
    case Err(e) => Err(e)
    case Ok(slot) =>
      if ins.name.None? then Ok(c.(stack := c.stack + [slot]))
      else if !slot.Known? then
        match Answer(frame, c.variables, ins.name.value, slot)
        case Err(e) => Err(e)
        case Ok(d) => Ok(c.(stack := c.stack + [Known(d)]))
      else if frame == Empty then Err(EmptyFrame)
      else Ok(Context(c.stack + [slot], c.variables[ins.name.value := slot.datum],
                      c.writes + [Write(ins.name.value, AsSlice(slot.datum))]))
  }

  const START := Context([], map[], [])

  /** `call`: the instructions one after the other. */
  function Run(frame: Frame, code: seq<Instruction>): Result<Context, Error> {
    if code == [] then Ok(START)
    else Continued(Run(frame, code[..|code| - 1]), frame, code[|code| - 1])
  }

  function Continued(run: Result<Context, Error>, frame: Frame, ins: Instruction): Result<Context, Error> {
    match run case Err(e) => Err(e) case Ok(c) => Execute(c, frame, ins)
  }
}
