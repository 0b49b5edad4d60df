/** Constant folding preserves meaning: running the compiled code builds the same
    slices, writes the same columns and fails alike as evaluating the unfolded
    expressions, unless a call without arguments is reached. */
module FoldingTheorems {
  import opened Results
  import opened Folding

  // ---------------------------------------------------- the unfolded meaning

  /** Names as the machine resolves them: the first value a name was given, by
      assignment or by being read from a column, stays. */
  type Env = map<string, Datum>

  datatype Evaluated = Evaluated(env: Env, datum: Datum)

  function Paired(env: Env, r: Result<Datum, Error>): Result<Evaluated, Error> {
    match r case Ok(d) => Ok(Evaluated(env, d)) case Err(e) => Err(e)
  }

  /** The meaning of an expression, one operation after the other, without folding. */
  function Eval(placeholders: bool, frame: Frame, env: Env, e: Expr): Result<Evaluated, Error>
    decreases e, 1, 0
  {
    match e
    case Const(r) => Ok(Evaluated(env, Number(r)))
    case Var(x) =>
      if x in env then Ok(Evaluated(env, env[x]))
      else if !placeholders then Err(UndefinedName)
      else if frame == Empty then Err(EmptyFrame)
      else Ok(Evaluated(env[x := Lazy(Column(x))], Lazy(Column(x))))
    case Unary(op, src) =>
      (match Eval(placeholders, frame, env, src)
       case Err(er) => Err(er)
       case Ok(a) => Paired(a.env, DoUnary(op, Known(a.datum))))
    case Binary(op, lhs, rhs) =>
      (match Eval(placeholders, frame, env, lhs)
       case Err(er) => Err(er)
       case Ok(a) =>
         match Eval(placeholders, frame, a.env, rhs)
         case Err(er) => Err(er)
         case Ok(b) => Paired(b.env, DoBinary(op, Known(a.datum), Known(b.datum))))
    case Call(op, _) =>
      (match EvalArgs(placeholders, frame, env, e, 0)
       case Err(er) => Err(er)
       case Ok(a) => Paired(a.0, DoFunction(op, AllKnown(a.1))))
  }

  function EvalArgs(placeholders: bool, frame: Frame, env: Env, e: Expr, i: nat): Result<(Env, seq<Datum>), Error>
    requires e.Call? && i <= |e.args|
    decreases e, 0, |e.args| - i
  {
    if i == |e.args| then Ok((env, []))
    else
      match Eval(placeholders, frame, env, e.args[i])
      case Err(er) => Err(er)
      case Ok(a) =>
        match EvalArgs(placeholders, frame, a.env, e, i + 1)
        case Err(er) => Err(er)
        case Ok(rest) => Ok((rest.0, [a.datum] + rest.1))
  }

  function AllKnown(data: seq<Datum>): seq<Slot> {
    if data == [] then [] else [Known(data[0])] + AllKnown(data[1..])
  }

  /** What each name was assigned last, and the columns that were written. */
  datatype Heap = Heap(variables: map<string, Datum>, writes: seq<Write>)

  function Assigned(h: Heap, x: string, d: Datum): Heap {
    Heap(h.variables[x := d], h.writes + [Write(x, AsSlice(d))])
  }

  /** The meaning of a script. */
  function EvalScript(placeholders: bool, frame: Frame, env: Env, heap: Heap,
                      script: seq<Assignment>): Result<Heap, Error>
    decreases |script|
  {
    if script == [] then Ok(heap)
    else
      match Eval(placeholders, frame, env, script[0].source)
      case Err(e) => Err(e)
      case Ok(a) =>
        var x := script[0].target;
        if frame == Empty then Err(EmptyFrame)
        else EvalScript(placeholders, frame, First(a.env, x, a.datum), Assigned(heap, x, a.datum), script[1..])
  }

  /** Only the first definition of a name counts. */
  function First(env: Env, x: string, d: Datum): Env {
    if x in env then env else env[x := d]
  }

  // --------------------------------------------------------- code and its run

  /** The value an operand stands for. */
  predicate Denotes(stack: seq<Slot>, v: Value, d: Datum) {
    Fetch(stack, v) == Ok(Known(d))
  }

  /** What the compiler makes of a call without arguments. */
  predicate IsEmptyCall(ins: Instruction) {
    ins == Instruction(None, DefineNumber(None))
  }

  /** The run comes to an empty call. */
  ghost predicate Reached(frame: Frame, code: seq<Instruction>) {
    exists k :: 0 <= k < |code| && IsEmptyCall(code[k]) && Run(frame, code[..k]).Ok?
  }

  /** Every stack entry has a value, the one its statement denotes if it is a value. */
  predicate StackSound(code: seq<Instruction>, stack: seq<Slot>) {
    && |stack| == |code|
    && (forall i :: 0 <= i < |code| ==> stack[i].Known? && !IsEmptyCall(code[i]))
    && (forall i :: 0 <= i < |code| && ToValue(code[i].stmt).Some? ==>
          Denotes(stack, ToValue(code[i].stmt).value, stack[i].datum))
  }

  /** `env` is what the first definitions hold. */
  ghost predicate NamesSound(code: seq<Instruction>, c: Context, env: Env)
    requires |c.stack| == |code|
  {
    && (forall x :: x in env <==> Find(code, x).Some?)
    && (forall x :: x in env ==> c.stack[Find(code, x).value] == Known(env[x]))
    && (forall x :: x in c.variables ==> x in env)
  }

  /** The code ran to `c`, and `env` is what its first definitions hold. */
  ghost predicate Ran(frame: Frame, code: seq<Instruction>, c: Context, env: Env) {
    Run(frame, code) == Ok(c) && StackSound(code, c.stack) && NamesSound(code, c, env)
  }

  /** The run fails where evaluation fails with `e`: alike, or by not failing at an
      empty call. */
  ghost predicate Failed(frame: Frame, code: seq<Instruction>, e: Error) {
    if e == NoArguments then Reached(frame, code) else Run(frame, code) == Err(e) && !Reached(frame, code)
  }

  lemma FindExtended(code: seq<Instruction>, ins: Instruction, x: string)
    ensures Find(code + [ins], x) ==
            if Find(code, x).Some? then Find(code, x) else if ins.name == Some(x) then Some(|code|) else None
  {
    assert (code + [ins])[..|code|] == code;
  }

  lemma RunExtended(frame: Frame, code: seq<Instruction>, ins: Instruction)
    ensures Run(frame, code + [ins]) == Continued(Run(frame, code), frame, ins)
  {
    assert (code + [ins])[..|code|] == code;
  }

  /** A run that failed does not recover. */
  lemma {:induction false} FailureStays(frame: Frame, code: seq<Instruction>, longer: seq<Instruction>)
    requires code <= longer && Run(frame, code).Err?
    ensures Run(frame, longer) == Run(frame, code)
    decreases |longer|
  {
    if longer != code {
      var shorter := longer[..|longer| - 1];
      assert code <= shorter && longer == shorter + [longer[|longer| - 1]];
      FailureStays(frame, code, shorter);
    }
  }

  lemma FailedStays(frame: Frame, code: seq<Instruction>, longer: seq<Instruction>, e: Error)
    requires code <= longer && Failed(frame, code, e)
    ensures Failed(frame, longer, e)
  {
    if e == NoArguments {
      var k :| 0 <= k < |code| && IsEmptyCall(code[k]) && Run(frame, code[..k]).Ok?;
      assert longer[..k] == code[..k];
    } else {
      FailureStays(frame, code, longer);
      forall k | 0 <= k < |longer| && IsEmptyCall(longer[k]) ensures Run(frame, longer[..k]).Err? {
        if k < |code| {
          assert longer[..k] == code[..k];
        } else {
          FailureStays(frame, code, longer[..k]);
        }
      }
    }
  }

  /** The run fails at the instruction after sound code. */
  lemma FailsNext(frame: Frame, code: seq<Instruction>, c: Context, env: Env, ins: Instruction, e: Error)
    requires Ran(frame, code, c, env) && !IsEmptyCall(ins) && e != NoArguments
    requires Execute(c, frame, ins) == Err(e)
    ensures Failed(frame, code + [ins], e)
  {
    RunExtended(frame, code, ins);
  }

  lemma DenotesLonger(stack: seq<Slot>, longer: seq<Slot>, v: Value, d: Datum)
    requires stack <= longer && Denotes(stack, v, d)
    ensures Denotes(longer, v, d)
  {
  }

  /** The environment after an instruction gave its name the value `d`. */
  function Named(env: Env, name: Option<string>, d: Datum): Env {
    if name.Some? then First(env, name.value, d) else env
  }

  lemma Appended(frame: Frame, code: seq<Instruction>, c: Context, env: Env, ins: Instruction, d: Datum, c': Context)
    requires Ran(frame, code, c, env) && !IsEmptyCall(ins)
    requires Execute(c, frame, ins) == Ok(c') && c'.stack == c.stack + [Known(d)]
    requires ToValue(ins.stmt).Some? ==> Denotes(c.stack, ToValue(ins.stmt).value, d)
    ensures Ran(frame, code + [ins], c', Named(env, ins.name, d))
  {
    RunExtended(frame, code, ins);
    StackExtended(code, c.stack, ins, d);
    NamesExtended(code, c, env, ins, d, c');
  }

  lemma StackExtended(code: seq<Instruction>, stack: seq<Slot>, ins: Instruction, d: Datum)
    requires StackSound(code, stack) && !IsEmptyCall(ins)
    requires ToValue(ins.stmt).Some? ==> Denotes(stack, ToValue(ins.stmt).value, d)
    ensures StackSound(code + [ins], stack + [Known(d)])
  {
  }

  lemma NamesExtended(code: seq<Instruction>, c: Context, env: Env, ins: Instruction, d: Datum, c': Context)
    requires |c.stack| == |code| && NamesSound(code, c, env) && c'.stack == c.stack + [Known(d)]
    requires forall x :: x in c'.variables ==> x in c.variables || ins.name == Some(x)
    ensures NamesSound(code + [ins], c', Named(env, ins.name, d))
  {
    forall x ensures Find(code + [ins], x) ==
                     if Find(code, x).Some? then Find(code, x) else if ins.name == Some(x) then Some(|code|) else None {
      FindExtended(code, ins, x);
    }
  }

  // ------------------------------------------------------ one folded operation

  /** The statement computes the result; if it is a value, it denotes it. */
  predicate Means(stack: seq<Slot>, stmt: Stmt, r: Result<Datum, Error>) {
    match r
    case Ok(d) => Compute(stack, stmt) == Ok(Known(d)) && (ToValue(stmt).Some? ==> Denotes(stack, ToValue(stmt).value, d))
    case Err(e) => e != NoArguments && ToValue(stmt).None? && Compute(stack, stmt) == Err(e)
  }

  predicate FoldMeans(stack: seq<Slot>, folded: Result<Stmt, Error>, r: Result<Datum, Error>) {
    if folded.Ok? then Means(stack, folded.value, r) else r == Err(folded.error)
  }

  /** What folding makes of an operation is what the operation does. */
  lemma FoldUnaryMeans(stack: seq<Slot>, op: UnaryOp, v: Value, d: Datum)
    requires Denotes(stack, v, d)
    ensures FoldMeans(stack, FoldUnary(op, v), DoUnary(op, Known(d)))
  {
  }

  /** The folded statement defines what the operation is between two reals. */
  predicate IsArithmetic(op: BinaryOp, a: real, b: real, r: Result<Stmt, Error>) {
    match op
    case Add => r == Ok(DefineNumber(Some(a + b)))
    case Sub => r == Ok(DefineNumber(Some(a - b)))
    case Mul => r == Ok(DefineNumber(Some(a * b)))
    case Div => if b == 0.0 then r == Err(DivisionByZero) else r == Ok(DefineNumber(Some(a / b)))
    case Eq => r == Ok(DefineFeature(Some(a == b)))
    case Ne => r == Ok(DefineFeature(Some(a != b)))
    case Ge => r == Ok(DefineFeature(Some(b <= a)))
    case Gt => r == Ok(DefineFeature(Some(b < a)))
    case Le => r == Ok(DefineFeature(Some(a <= b)))
    case Lt => r == Ok(DefineFeature(Some(a < b)))
    case _ => r == Err(Unexpected)
  }

  lemma NumbersFold(op: BinaryOp, a: real, b: real)
    ensures IsArithmetic(op, a, b, FoldBinary(op, OfNumber(a), OfNumber(b)))
  {
    if op == Mul {
      var product := a * b;
      assert OnNumbers(op, a, b) == Ok(Number(product));
    }
  }

  lemma LogicMeans(stack: seq<Slot>, op: BinaryOp, v: Value, w: Value, d: Datum, e: Datum)
    requires IsLogic(op) && Denotes(stack, v, d) && Denotes(stack, w, e)
    ensures FoldMeans(stack, FoldBinary(op, v, w), DoBinary(op, Known(d), Known(e)))
  {
  }

  lemma ArithmeticMeans(stack: seq<Slot>, op: BinaryOp, v: Value, w: Value, d: Datum, e: Datum)
    requires !IsLogic(op) && Denotes(stack, v, d) && Denotes(stack, w, e)
    ensures FoldMeans(stack, FoldBinary(op, v, w), DoBinary(op, Known(d), Known(e)))
  {
  }

  lemma FoldBinaryMeans(stack: seq<Slot>, op: BinaryOp, v: Value, w: Value, d: Datum, e: Datum)
    requires Denotes(stack, v, d) && Denotes(stack, w, e)
    ensures FoldMeans(stack, FoldBinary(op, v, w), DoBinary(op, Known(d), Known(e)))
    ensures v.OfNumber? && w.OfNumber? ==> IsArithmetic(op, v.number, w.number, FoldBinary(op, v, w))
  {
    if IsLogic(op) {
      LogicMeans(stack, op, v, w, d, e);
    } else {
      ArithmeticMeans(stack, op, v, w, d, e);
    }
    if v.OfNumber? && w.OfNumber? {
      NumbersFold(op, v.number, w.number);
    }
  }

  predicate DenoteAll(stack: seq<Slot>, vs: seq<Value>, ds: seq<Datum>) {
    |vs| == |ds| && forall i :: 0 <= i < |vs| ==> Denotes(stack, vs[i], ds[i])
  }

  lemma {:induction false} FetchedAll(stack: seq<Slot>, vs: seq<Value>, ds: seq<Datum>)
    requires DenoteAll(stack, vs, ds)
    ensures FetchAll(stack, vs) == Ok(AllKnown(ds)) && |AllKnown(ds)| == |ds|
  {
    if vs != [] {
      FetchedAll(stack, vs[1..], ds[1..]);
    }
  }

  /** On numbers alone the accumulator computes the extremum. */
  lemma {:induction false} NumbersAccumulate(stack: seq<Slot>, op: FunctionOp, vs: seq<Value>, ds: seq<Datum>)
    requires DenoteAll(stack, vs, ds) && vs != [] && !op.Custom? && forall v :: v in vs ==> v.OfNumber?
    ensures AllOperands(AllKnown(ds)) == Ok(ds) && |Numbers(vs)| == |vs|
    ensures forall d :: d in ds ==> !d.Feature?
    ensures Accumulated(op, ds) == Ok(Number(Extremum(op, Numbers(vs))))
  {
    assert vs[0] in vs && Denotes(stack, vs[0], ds[0]);
    assert ds == [ds[0]] + ds[1..];
    if |vs| > 1 {
      NumbersAccumulate(stack, op, vs[1..], ds[1..]);
      assert Numbers(vs)[1..] == Numbers(vs[1..]);
    } else {
      assert ds[1..] == [] && AllKnown(ds[1..]) == [];
    }
  }

  lemma {:induction false} AccumulatedFails(op: FunctionOp, args: seq<Datum>)
    requires args != [] && !op.Custom? && forall a :: a in args ==> !a.Feature?
    ensures Accumulated(op, args).Ok? || Accumulated(op, args) == Err(MultipleSlices)
  {
    if |args| > 1 {
      AccumulatedFails(op, args[1..]);
    }
  }

  lemma {:induction false} OperandsFail(slots: seq<Slot>)
    ensures AllOperands(slots).Ok? || AllOperands(slots).error in {Unexpected, Undefined}
  {
    if slots != [] {
      OperandsFail(slots[1..]);
    }
  }

  lemma FoldFunctionMeans(stack: seq<Slot>, op: FunctionOp, vs: seq<Value>, ds: seq<Datum>)
    requires DenoteAll(stack, vs, ds) && vs != []
    ensures FoldMeans(stack, FoldFunction(op, vs), DoFunction(op, AllKnown(ds)))
  {
    FetchedAll(stack, vs, ds);
    if !op.Custom? {
      if forall v :: v in vs ==> v.OfNumber? {
        NumbersAccumulate(stack, op, vs, ds);
      } else {
        OperandsFail(AllKnown(ds));
        if AllOperands(AllKnown(ds)).Ok? {
          OperandsAreNoFeatures(AllKnown(ds));
          AccumulatedFails(op, AllOperands(AllKnown(ds)).value);
        }
      }
    }
  }

  // --------------------------------------------------------------- expressions

  /** The run went on from `c` without touching variables and columns. */
  predicate GoesOn(c: Context, run: Context) {
    c.stack <= run.stack && run.variables == c.variables && run.writes == c.writes
  }

  /** Running the code goes on from `c` to the evaluated value, or fails. */
  ghost predicate Correct(frame: Frame, code: seq<Instruction>, c: Context, value: Value, r: Result<Evaluated, Error>) {
    match r
    case Err(e) => Failed(frame, code, e)
    case Ok(ev) =>
      var run := Run(frame, code);
      && run.Ok? && Ran(frame, code, run.value, ev.env) && GoesOn(c, run.value)
      && Denotes(run.value.stack, value, ev.datum)
  }

  /** Where compiling fails, evaluation fails; otherwise the code is correct. */
  ghost predicate ExprCorrect(frame: Frame, c: Context, compiled: Result<Compiled, Error>, r: Result<Evaluated, Error>) {
    if compiled.Ok? then Correct(frame, compiled.value.code, c, compiled.value.value, r) else r.Err?
  }

  lemma {:induction false} CompileExtends(p: bool, code: seq<Instruction>, e: Expr)
    requires CompileExpr(p, code, e).Ok?
    ensures code <= CompileExpr(p, code, e).value.code
    decreases e, 1, 0
  {
    match e
    case Unary(_, src) => CompileExtends(p, code, src);
    case Binary(_, lhs, rhs) =>
      CompileExtends(p, code, lhs);
      CompileExtends(p, CompileExpr(p, code, lhs).value.code, rhs);
    case Call(_, _) => CompileArgsExtends(p, code, e, 0);
    case _ =>
  }

  lemma {:induction false} CompileArgsExtends(p: bool, code: seq<Instruction>, e: Expr, i: nat)
    requires e.Call? && i <= |e.args| && CompileArgs(p, code, e, i).Ok?
    ensures code <= CompileArgs(p, code, e, i).value.0
    ensures |CompileArgs(p, code, e, i).value.1| == |e.args| - i
    decreases e, 0, |e.args| - i
  {
    if i < |e.args| {
      CompileExtends(p, code, e.args[i]);
      CompileArgsExtends(p, CompileExpr(p, code, e.args[i]).value.code, e, i + 1);
    }
  }

  lemma FinishExtends(code: seq<Instruction>, stmt: Result<Stmt, Error>)
    ensures FinishAll(code, stmt).Ok? ==> code <= FinishAll(code, stmt).value.code
  {
  }

  /** Finishing a statement that means the result. */
  lemma FinishCorrect(frame: Frame, code: seq<Instruction>, start: Context, c: Context, env: Env, stmt: Stmt,
                      r: Result<Datum, Error>)
    requires Ran(frame, code, c, env) && GoesOn(start, c) && Means(c.stack, stmt, r)
    ensures Correct(frame, Finish(code, stmt).code, start, Finish(code, stmt).value, Paired(env, r))
  {
    var ins := Instruction(None, stmt);
    if ToValue(stmt).None? {
      RunExtended(frame, code, ins);
      if r.Ok? {
        Appended(frame, code, c, env, ins, r.value, c.(stack := c.stack + [Known(r.value)]));
      } else {
        FailsNext(frame, code, c, env, ins, r.error);
      }
    }
  }

  /** An unknown name is registered, and the column answers. */
  lemma PlaceholderRan(frame: Frame, code: seq<Instruction>, c: Context, env: Env, x: string)
    requires Ran(frame, code, c, env) && x !in env
    ensures var longer := code + [Instruction(Some(x), DefineNumber(None))];
            var d := Lazy(Column(x));
            if frame == Empty then Failed(frame, longer, EmptyFrame)
            else Ran(frame, longer, c.(stack := c.stack + [Known(d)]), env[x := d])
  {
    var ins := Instruction(Some(x), DefineNumber(None));
    if frame == Empty {
      FailsNext(frame, code, c, env, ins, EmptyFrame);
    } else {
      Appended(frame, code, c, env, ins, Lazy(Column(x)), c.(stack := c.stack + [Known(Lazy(Column(x)))]));
    }
  }

  /** A known name denotes its first definition. */
  lemma NameDenotes(code: seq<Instruction>, c: Context, env: Env, x: string)
    requires StackSound(code, c.stack) && NamesSound(code, c, env) && x in env
    ensures var i := Find(code, x).value;
            Denotes(c.stack, if ToValue(code[i].stmt).Some? then ToValue(code[i].stmt).value else Variable(i), env[x])
  {
    var i := Find(code, x).value;
    assert c.stack[i] == Known(env[x]);
  }

  lemma VarCorrect(p: bool, frame: Frame, code: seq<Instruction>, c: Context, env: Env, x: string)
    requires Ran(frame, code, c, env)
    ensures ExprCorrect(frame, c, CompileExpr(p, code, Var(x)), Eval(p, frame, env, Var(x)))
  {
    if x in env {
      NameDenotes(code, c, env, x);
    } else if p {
      NewNameCorrect(frame, code, c, env, x);
    }
  }

  lemma NewNameCorrect(frame: Frame, code: seq<Instruction>, c: Context, env: Env, x: string)
    requires Ran(frame, code, c, env) && x !in env
    ensures var d := Lazy(Column(x));
            Correct(frame, code + [Instruction(Some(x), DefineNumber(None))], c, Variable(|code|),
                    if frame == Empty then Err(EmptyFrame) else Ok(Evaluated(env[x := d], d)))
  {
    PlaceholderRan(frame, code, c, env, x);
  }

  /** Compiling preserves meaning: where it fails, evaluation fails, and where it
      succeeds, running the code gives the same value or the same failure. */
  lemma {:induction false} CompileCorrect(p: bool, frame: Frame, code: seq<Instruction>, c: Context, env: Env, e: Expr)
    requires Ran(frame, code, c, env)
    ensures ExprCorrect(frame, c, CompileExpr(p, code, e), Eval(p, frame, env, e))
    decreases e, 1, 0
  {
    match e
    case Const(_) =>
    case Var(x) => VarCorrect(p, frame, code, c, env, x);
    case Unary(op, src) =>
      CompileCorrect(p, frame, code, c, env, src);
      UnaryCorrect(p, frame, code, c, env, e);
    case Binary(op, lhs, rhs) =>
      CompileCorrect(p, frame, code, c, env, lhs);
      var l, a := CompileExpr(p, code, lhs), Eval(p, frame, env, lhs);
      if l.Ok? && a.Ok? {
        CompileCorrect(p, frame, l.value.code, Run(frame, l.value.code).value, a.value.env, rhs);
      }
      BinaryCorrect(p, frame, code, c, env, e);
    case Call(op, args) =>
      ArgsCorrect(p, frame, code, c, env, e, 0);
      CallCorrect(p, frame, code, c, env, e);
  }

  lemma UnaryCorrect(p: bool, frame: Frame, code: seq<Instruction>, c: Context, env: Env, e: Expr)
    requires Ran(frame, code, c, env) && e.Unary?
    requires ExprCorrect(frame, c, CompileExpr(p, code, e.src), Eval(p, frame, env, e.src))
    ensures ExprCorrect(frame, c, CompileExpr(p, code, e), Eval(p, frame, env, e))
  {
    var l, a := CompileExpr(p, code, e.src), Eval(p, frame, env, e.src);
    if l.Ok? {
      var stmt := FoldUnary(e.uop, l.value.value);
      FinishExtends(l.value.code, stmt);
      if a.Err? {
        StaysFailed(frame, l.value.code, c, CompileExpr(p, code, e), a.error);
      } else {
        var run := Run(frame, l.value.code).value;
        FoldUnaryMeans(run.stack, e.uop, l.value.value, a.value.datum);
        if stmt.Ok? {
          FinishCorrect(frame, l.value.code, c, run, a.value.env, stmt.value, DoUnary(e.uop, Known(a.value.datum)));
        }
      }
    }
  }

  lemma BinaryCorrect(p: bool, frame: Frame, code: seq<Instruction>, c: Context, env: Env, e: Expr)
    requires Ran(frame, code, c, env) && e.Binary?
    requires ExprCorrect(frame, c, CompileExpr(p, code, e.lhs), Eval(p, frame, env, e.lhs))
    requires var l, a := CompileExpr(p, code, e.lhs), Eval(p, frame, env, e.lhs);
             l.Ok? && a.Ok? ==>
               ExprCorrect(frame, Run(frame, l.value.code).value, CompileExpr(p, l.value.code, e.rhs), Eval(p, frame, a.value.env, e.rhs))
    ensures ExprCorrect(frame, c, CompileExpr(p, code, e), Eval(p, frame, env, e))
  {
    var l, a := CompileExpr(p, code, e.lhs), Eval(p, frame, env, e.lhs);
    if CompileExpr(p, code, e).Ok? {
      BinaryExtends(p, code, e);
      var r := CompileExpr(p, l.value.code, e.rhs);
      if a.Err? {
        StaysFailed(frame, l.value.code, c, CompileExpr(p, code, e), a.error);
      } else if Eval(p, frame, a.value.env, e.rhs).Err? {
        StaysFailed(frame, r.value.code, c, CompileExpr(p, code, e), Eval(p, frame, a.value.env, e.rhs).error);
      } else {
        var b := Eval(p, frame, a.value.env, e.rhs).value;
        var start := Run(frame, l.value.code).value;
        FoldedCorrect(frame, c, start, e.bop, l.value.value, a.value.datum, r.value, b);
      }
    } else if l.Ok? && a.Ok? && CompileExpr(p, l.value.code, e.rhs).Ok? && Eval(p, frame, a.value.env, e.rhs).Ok? {
      var b := Eval(p, frame, a.value.env, e.rhs).value;
      FoldedCorrect(frame, c, Run(frame, l.value.code).value, e.bop, l.value.value, a.value.datum,
                    CompileExpr(p, l.value.code, e.rhs).value, b);
    }
  }

  lemma BinaryExtends(p: bool, code: seq<Instruction>, e: Expr)
    requires e.Binary? && CompileExpr(p, code, e).Ok?
    ensures var l := CompileExpr(p, code, e.lhs);
            && l.Ok? && CompileExpr(p, l.value.code, e.rhs).Ok?
            && l.value.code <= CompileExpr(p, l.value.code, e.rhs).value.code <= CompileExpr(p, code, e).value.code
  {
    CompileExtends(p, CompileExpr(p, code, e.lhs).value.code, e.rhs);
  }

  /** Code that goes on from a failed run fails alike. */
  lemma StaysFailed(frame: Frame, code: seq<Instruction>, c: Context, compiled: Result<Compiled, Error>, error: Error)
    requires Failed(frame, code, error)
    requires compiled.Ok? ==> code <= compiled.value.code
    ensures ExprCorrect(frame, c, compiled, Err(error))
  {
    if compiled.Ok? {
      FailedStays(frame, code, compiled.value.code, error);
    }
  }

  /** Both operands were evaluated: what is left is one operation. */
  lemma FoldedCorrect(frame: Frame, c: Context, start: Context, op: BinaryOp, v: Value, d: Datum, r: Compiled,
                      b: Evaluated)
    requires GoesOn(c, start) && Denotes(start.stack, v, d)
    requires Correct(frame, r.code, start, r.value, Ok(b))
    ensures ExprCorrect(frame, c, FinishAll(r.code, FoldBinary(op, v, r.value)), Paired(b.env, DoBinary(op, Known(d), Known(b.datum))))
  {
    var run := Run(frame, r.code).value;
    DenotesLonger(start.stack, run.stack, v, d);
    FoldBinaryMeans(run.stack, op, v, r.value, d, b.datum);
    if FoldBinary(op, v, r.value).Ok? {
      FinishCorrect(frame, r.code, c, run, b.env, FoldBinary(op, v, r.value).value, DoBinary(op, Known(d), Known(b.datum)));
    }
  }

  ghost predicate ArgsRan(frame: Frame, code: seq<Instruction>, c: Context, vs: seq<Value>, r: Result<(Env, seq<Datum>), Error>) {
    match r
    case Err(e) => Failed(frame, code, e)
    case Ok(a) =>
      var run := Run(frame, code);
      && run.Ok? && Ran(frame, code, run.value, a.0) && GoesOn(c, run.value)
      && DenoteAll(run.value.stack, vs, a.1)
  }

  ghost predicate ArgsAllCorrect(frame: Frame, c: Context, compiled: Result<(seq<Instruction>, seq<Value>), Error>,
                                 r: Result<(Env, seq<Datum>), Error>)
  {
    if compiled.Ok? then ArgsRan(frame, compiled.value.0, c, compiled.value.1, r) else r.Err?
  }

  lemma {:induction false} ArgsCorrect(p: bool, frame: Frame, code: seq<Instruction>, c: Context, env: Env, e: Expr,
                                       i: nat)
    requires Ran(frame, code, c, env) && e.Call? && i <= |e.args|
    ensures ArgsAllCorrect(frame, c, CompileArgs(p, code, e, i), EvalArgs(p, frame, env, e, i))
    decreases e, 0, |e.args| - i
  {
    if i < |e.args| {
      CompileCorrect(p, frame, code, c, env, e.args[i]);
      var l, a := CompileExpr(p, code, e.args[i]), Eval(p, frame, env, e.args[i]);
      if l.Ok? && a.Ok? {
        ArgsCorrect(p, frame, l.value.code, Run(frame, l.value.code).value, a.value.env, e, i + 1);
        var rest, r := CompileArgs(p, l.value.code, e, i + 1), EvalArgs(p, frame, a.value.env, e, i + 1);
        if rest.Ok? && r.Ok? {
          ArgsStep(frame, c, l.value, a.value, rest, r);
        }
      } else if l.Ok? && CompileArgs(p, l.value.code, e, i + 1).Ok? {
        CompileArgsExtends(p, l.value.code, e, i + 1);
        FailedStays(frame, l.value.code, CompileArgs(p, l.value.code, e, i + 1).value.0, a.error);
      }
    }
  }

  lemma ArgsStep(frame: Frame, c: Context, l: Compiled, a: Evaluated, rest: Result<(seq<Instruction>, seq<Value>), Error>,
                 r: Result<(Env, seq<Datum>), Error>)
    requires Correct(frame, l.code, c, l.value, Ok(a))
    requires rest.Ok? && r.Ok? && ArgsRan(frame, rest.value.0, Run(frame, l.code).value, rest.value.1, r)
    ensures ArgsRan(frame, rest.value.0, c, [l.value] + rest.value.1, Ok((r.value.0, [a.datum] + r.value.1)))
  {
    DenotesLonger(Run(frame, l.code).value.stack, Run(frame, rest.value.0).value.stack, l.value, a.datum);
  }

  lemma CallCorrect(p: bool, frame: Frame, code: seq<Instruction>, c: Context, env: Env, e: Expr)
    requires Ran(frame, code, c, env) && e.Call?
    requires ArgsAllCorrect(frame, c, CompileArgs(p, code, e, 0), EvalArgs(p, frame, env, e, 0))
    ensures ExprCorrect(frame, c, CompileExpr(p, code, e), Eval(p, frame, env, e))
  {
    var l, a := CompileArgs(p, code, e, 0), EvalArgs(p, frame, env, e, 0);
    if l.Ok? {
      var stmt := FoldFunction(e.fop, l.value.1);
      FinishExtends(l.value.0, stmt);
      if a.Err? {
        StaysFailed(frame, l.value.0, c, CompileExpr(p, code, e), a.error);
      } else {
        var run := Run(frame, l.value.0).value;
        if l.value.1 == [] {
          EmptyCallReached(frame, l.value.0, run, a.value.0, stmt);
        } else {
          FoldFunctionMeans(run.stack, e.fop, l.value.1, a.value.1);
          if stmt.Ok? {
            FinishCorrect(frame, l.value.0, c, run, a.value.0, stmt.value, DoFunction(e.fop, AllKnown(a.value.1)));
          }
        }
      }
    }
  }

  lemma EmptyCallReached(frame: Frame, code: seq<Instruction>, c: Context, env: Env, stmt: Result<Stmt, Error>)
    requires Ran(frame, code, c, env)
    ensures stmt == Ok(DefineNumber(None)) ==> Failed(frame, FinishAll(code, stmt).value.code, NoArguments)
  {
    if stmt == Ok(DefineNumber(None)) {
      var longer := FinishAll(code, stmt).value.code;
      assert longer[..|code|] == code && IsEmptyCall(longer[|code|]);
    }
  }

  // ------------------------------------------------------------------- scripts

  /** The run ends as the evaluation does: with the same variables and the same
      columns written, or with the same failure. */
  predicate SameEnd(run: Result<Context, Error>, r: Result<Heap, Error>) {
    match r
    case Ok(heap) => run.Ok? && run.value.variables == heap.variables && run.value.writes == heap.writes
    case Err(e) => run == Err(e)
  }

  /** How a run and an evaluation end; only an empty call makes them differ. */
  ghost predicate ScriptEnds(frame: Frame, code: seq<Instruction>, r: Result<Heap, Error>) {
    match r
    case Ok(_) => SameEnd(Run(frame, code), r) && !Reached(frame, code)
    case Err(e) => Failed(frame, code, e)
  }

  lemma {:induction false} ScriptExtends(p: bool, code: seq<Instruction>, script: seq<Assignment>)
    requires CompileScript(p, code, script).Ok?
    ensures code <= CompileScript(p, code, script).value
    decreases |script|
  {
    if script != [] {
      CompileExtends(p, code, script[0].source);
      var c := CompileExpr(p, code, script[0].source).value;
      ScriptExtends(p, c.code + [Instruction(Some(script[0].target), FromValue(c.value))], script[1..]);
    }
  }

  lemma AssignedRan(frame: Frame, code: seq<Instruction>, c: Context, env: Env, x: string, v: Value, d: Datum)
    requires Ran(frame, code, c, env) && Denotes(c.stack, v, d)
    ensures var longer := code + [Instruction(Some(x), FromValue(v))];
            if frame == Empty then Failed(frame, longer, EmptyFrame)
            else Ran(frame, longer, Context(c.stack + [Known(d)], c.variables[x := d], c.writes + [Write(x, AsSlice(d))]),
                     First(env, x, d))
  {
    var ins := Instruction(Some(x), FromValue(v));
    if frame == Empty {
      FailsNext(frame, code, c, env, ins, EmptyFrame);
    } else {
      Appended(frame, code, c, env, ins, d, Context(c.stack + [Known(d)], c.variables[x := d], c.writes + [Write(x, AsSlice(d))]));
    }
  }

  function HeapOf(c: Context): Heap {
    Heap(c.variables, c.writes)
  }

  lemma {:induction false} ScriptCorrect(p: bool, frame: Frame, code: seq<Instruction>, c: Context, env: Env,
                                         script: seq<Assignment>)
    requires Ran(frame, code, c, env)
    ensures var compiled, r := CompileScript(p, code, script), EvalScript(p, frame, env, HeapOf(c), script);
            if compiled.Ok? then ScriptEnds(frame, compiled.value, r) else r.Err?
    decreases |script|
  {
    if script != [] {
      var x := script[0].target;
      CompileCorrect(p, frame, code, c, env, script[0].source);
      var l, a := CompileExpr(p, code, script[0].source), Eval(p, frame, env, script[0].source);
      if l.Ok? {
        var next := l.value.code + [Instruction(Some(x), FromValue(l.value.value))];
        if a.Ok? {
          AssignedRan(frame, l.value.code, Run(frame, l.value.code).value, a.value.env, x, l.value.value, a.value.datum);
        }
        if a.Ok? && frame != Empty {
          ScriptCorrect(p, frame, next, Run(frame, next).value, First(a.value.env, x, a.value.datum), script[1..]);
        } else if CompileScript(p, next, script[1..]).Ok? {
          ScriptExtends(p, next, script[1..]);
          var whole := CompileScript(p, next, script[1..]).value;
          if a.Err? {
            assert l.value.code <= next;
            FailedStays(frame, l.value.code, whole, a.error);
          } else {
            FailedStays(frame, next, whole, EmptyFrame);
          }
        }
      }
    }
  }

  /** The compiler never leaves a function without arguments in the code. */
  predicate FunctionsApplied(code: seq<Instruction>) {
    forall i :: 0 <= i < |code| ==> code[i].stmt.FunctionStmt? ==> code[i].stmt.args != []
  }

  lemma {:induction false} ExprApplied(p: bool, code: seq<Instruction>, e: Expr)
    requires FunctionsApplied(code) && CompileExpr(p, code, e).Ok?
    ensures FunctionsApplied(CompileExpr(p, code, e).value.code)
    decreases e, 1, 0
  {
    match e
    case Unary(_, src) => ExprApplied(p, code, src);
    case Binary(_, lhs, rhs) =>
      ExprApplied(p, code, lhs);
      ExprApplied(p, CompileExpr(p, code, lhs).value.code, rhs);
    case Call(_, _) => ArgsApplied(p, code, e, 0);
    case _ =>
  }

  lemma {:induction false} ArgsApplied(p: bool, code: seq<Instruction>, e: Expr, i: nat)
    requires FunctionsApplied(code) && e.Call? && i <= |e.args| && CompileArgs(p, code, e, i).Ok?
    ensures FunctionsApplied(CompileArgs(p, code, e, i).value.0)
    decreases e, 0, |e.args| - i
  {
    if i < |e.args| {
      ExprApplied(p, code, e.args[i]);
      ArgsApplied(p, CompileExpr(p, code, e.args[i]).value.code, e, i + 1);
    }
  }

  lemma {:induction false} ScriptApplied(p: bool, code: seq<Instruction>, script: seq<Assignment>)
    requires FunctionsApplied(code) && CompileScript(p, code, script).Ok?
    ensures FunctionsApplied(CompileScript(p, code, script).value)
    decreases |script|
  {
    if script != [] {
      ExprApplied(p, code, script[0].source);
      var c := CompileExpr(p, code, script[0].source).value;
      ScriptApplied(p, c.code + [Instruction(Some(script[0].target), FromValue(c.value))], script[1..]);
    }
  }

  /** So its run never complains about missing arguments. */
  lemma {:induction false} NeverNoArguments(frame: Frame, code: seq<Instruction>)
    requires FunctionsApplied(code)
    ensures Run(frame, code) != Err(NoArguments)
    decreases |code|
  {
    if code != [] {
      NeverNoArguments(frame, code[..|code| - 1]);
      var before := Run(frame, code[..|code| - 1]);
      if before.Ok? {
        StmtHasArguments(before.value.stack, code[|code| - 1].stmt);
      }
    }
  }

  lemma StmtHasArguments(stack: seq<Slot>, s: Stmt)
    requires s.FunctionStmt? ==> s.args != []
    ensures Compute(stack, s) != Err(NoArguments)
  {
    if s.FunctionStmt? {
      FetchFails(stack, s.args);
      var slots := FetchAll(stack, s.args);
      if slots.Ok? && !s.fop.Custom? {
        OperandsFail(slots.value);
        if AllOperands(slots.value).Ok? {
          OperandsAreNoFeatures(slots.value);
          AccumulatedFails(s.fop, AllOperands(slots.value).value);
        }
      }
    }
  }

  lemma {:induction false} FetchFails(stack: seq<Slot>, vs: seq<Value>)
    ensures FetchAll(stack, vs).Ok? ==> |FetchAll(stack, vs).value| == |vs|
    ensures FetchAll(stack, vs).Err? ==> FetchAll(stack, vs).error == IllegalAccess
  {
    if vs != [] {
      FetchFails(stack, vs[1..]);
    }
  }

  /** Folding constants preserves the meaning of a script. When compiling fails,
      evaluating the unfolded script fails. When it succeeds, the run ends as the
      evaluation does, with the same variables, the same slices written to the same
      columns in the same order, or the same failure, if and only if it comes to no
      call without arguments. */
  lemma FoldingPreservesMeaning(p: bool, frame: Frame, script: seq<Assignment>)
    ensures var compiled, r := CompileScript(p, [], script), EvalScript(p, frame, map[], Heap(map[], []), script);
            if compiled.Err? then r.Err?
            else SameEnd(Run(frame, compiled.value), r) <==> !Reached(frame, compiled.value)
  {
    ScriptCorrect(p, frame, [], START, map[], script);
    var compiled := CompileScript(p, [], script);
    if compiled.Ok? {
      ScriptApplied(p, [], script);
      NeverNoArguments(frame, compiled.value);
    }
  }

  /** The exception: a call without arguments is not refused, but takes the column of
      the assigned name, and nothing is written. */
  lemma EmptyCallSlipsThrough(p: bool, op: FunctionOp, x: string)
    requires !op.Custom?
    ensures var script := [Assignment(x, Call(op, []))];
            && EvalScript(p, Columns, map[], Heap(map[], []), script) == Err(NoArguments)
            && CompileScript(p, [], script).Ok?
            && Run(Columns, CompileScript(p, [], script).value) == Ok(Context([NoNumber, Known(Lazy(Column(x)))], map[], []))
  {
    var e := Call(op, []);
    var first := Instruction(None, DefineNumber(None));
    var second := Instruction(Some(x), Identity(0));
    assert CompileExpr(p, [], e) == Ok(Compiled([] + [first], Variable(0)));
    assert [] + [first] + [second] == [first, second];
    TakesTheColumn(x);
  }

  lemma TakesTheColumn(x: string)
    ensures Run(Columns, [Instruction(None, DefineNumber(None)), Instruction(Some(x), Identity(0))]) ==
            Ok(Context([NoNumber, Known(Lazy(Column(x)))], map[], []))
  {
    var first := Instruction(None, DefineNumber(None));
    var second := Instruction(Some(x), Identity(0));
    var begun := Context([NoNumber], map[], []);
    assert [first][..0] == [] && START.stack + [NoNumber] == [NoNumber];
    assert Run(Columns, [first]) == Continued(Run(Columns, []), Columns, first) == Ok(begun);
    assert [first, second][..1] == [first];
    assert Run(Columns, [first, second]) == Continued(Ok(begun), Columns, second);
    assert begun.stack + [Known(Lazy(Column(x)))] == [NoNumber, Known(Lazy(Column(x)))];
  }
}
