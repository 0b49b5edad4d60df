/** The lazy machine at work: registering instructions while it compiles, and the
    loop that executes them, each proved to do what `Folding` says. */
module FoldingMachine {
  import opened Results
  import opened Folding

  class LazyVirtualMachine {
    var localVariables: seq<Instruction>
    const usePlaceholders: bool

    constructor (usePlaceholders: bool)
      ensures localVariables == [] && this.usePlaceholders == usePlaceholders
    {
      localVariables := [];
      this.usePlaceholders := usePlaceholders;
    }

    method RegisterInstruction(ins: Instruction) returns (v: Value)
      modifies this`localVariables
      ensures localVariables == old(localVariables) + [ins] && v == Variable(|old(localVariables)|)
    {
      v := Variable(|localVariables|);
      localVariables := localVariables + [ins];
    }

    /** The method ended as `CompileExpr` says; after an error the machine is dropped. */
    predicate Did(compiled: Result<Compiled, Error>, r: Result<Value, Error>)
      reads this`localVariables
    {
      match compiled
      case Ok(c) => r == Ok(c.value) && localVariables == c.code
      case Err(e) => r == Err(e)
    }

    method GetLocalValueByName(name: string) returns (r: Result<Value, Error>)
      modifies this`localVariables
      ensures Did(CompileExpr(usePlaceholders, old(localVariables), Var(name)), r)
    {
      var i := 0;
      while i < |localVariables| && localVariables[i].name != Some(name)
        invariant 0 <= i <= |localVariables|
        invariant forall j :: 0 <= j < i ==> localVariables[j].name != Some(name)
      {
        i := i + 1;
      }
      if i < |localVariables| {
        var v := ToValue(localVariables[i].stmt);
        return Ok(if v.Some? then v.value else Variable(i));
      }
      if usePlaceholders {
        var v := RegisterInstruction(Instruction(Some(name), DefineNumber(None)));
        return Ok(v);
      }
      return Err(UndefinedName);
    }

    /** The end of `execute_expr`: a value is used as it is, anything else is registered. */
    method RegisterStmt(stmt: Result<Stmt, Error>) returns (r: Result<Value, Error>)
      modifies this`localVariables
      ensures Did(FinishAll(old(localVariables), stmt), r)
    {
      if stmt.Err? {
        return Err(stmt.error);
      }
      var v := ToValue(stmt.value);
      if v.Some? {
        return Ok(v.value);
      }
      var registered := RegisterInstruction(Instruction(None, stmt.value));
      return Ok(registered);
    }

    method ExecuteExpr(e: Expr) returns (r: Result<Value, Error>)
      modifies this`localVariables
      ensures Did(CompileExpr(usePlaceholders, old(localVariables), e), r)
      decreases e, 1
    {
      match e {
        case Const(number) =>
          r := Ok(OfNumber(number));
        case Var(name) =>
          r := GetLocalValueByName(name);
        case Unary(op, src) =>
          r := ExecuteExpr(src);
          if r.Ok? {
            r := RegisterStmt(FoldUnary(op, r.value));
          }
        case Binary(op, lhs, rhs) =>
          r := ExecuteExpr(lhs);
          if r.Ok? {
            var left := r.value;
            r := ExecuteExpr(rhs);
            if r.Ok? {
              r := RegisterStmt(FoldBinary(op, left, r.value));
            }
          }
        case Call(op, _) =>
          var values := ExecuteArgs(e);
          match values {
            case Err(error) => r := Err(error);
            case Ok(vs) => r := RegisterStmt(FoldFunction(op, vs));
          }
      }
    }

    method ExecuteArgs(e: Expr) returns (r: Result<seq<Value>, Error>)
      requires e.Call?
      modifies this`localVariables
      ensures match CompileArgs(usePlaceholders, old(localVariables), e, 0)
              case Ok(c) => r == Ok(c.1) && localVariables == c.0
              case Err(error) => r == Err(error)
      decreases e, 0
    {
      var values: seq<Value> := [];
      var status: Result<(), Error> := Ok(());
      ghost var goal := CompileArgs(usePlaceholders, localVariables, e, 0);
      assert goal.Ok? ==> values + goal.value.1 == goal.value.1;
      var i := 0;
      while i < |e.args| && status.Ok?
        invariant 0 <= i <= |e.args|
        invariant status.Ok? ==> Ahead(goal, values, CompileArgs(usePlaceholders, localVariables, e, i))
        invariant status.Err? ==> goal == Err(status.error)
      {
        var v := ExecuteExpr(e.args[i]);
        if v.Ok? {
          AheadStep(goal, values, v.value, CompileArgs(usePlaceholders, localVariables, e, i + 1));
          values := values + [v.value];
        } else {
          status := Err(v.error);
        }
        i := i + 1;
      }
      assert values + [] == values;
      r := if status.Ok? then Ok(values) else Err(status.error);
    }

    method ExecuteScript(script: seq<Assignment>) returns (r: Result<(), Error>)
      modifies this`localVariables
      ensures match CompileScript(usePlaceholders, old(localVariables), script)
              case Ok(code) => r.Ok? && localVariables == code
              case Err(error) => r == Err(error)
    {
      r := Ok(());
      ghost var goal := CompileScript(usePlaceholders, localVariables, script);
      var i := 0;
      while i < |script| && r.Ok?
        invariant 0 <= i <= |script|
        invariant r.Ok? ==> goal == CompileScript(usePlaceholders, localVariables, script[i..])
        invariant r.Err? ==> goal == Err(r.error)
      {
        var v := ExecuteExpr(script[i].source);
        if v.Ok? {
          var _ := RegisterInstruction(Instruction(Some(script[i].target), FromValue(v.value)));
        } else {
          r := Err(v.error);
        }
        i := i + 1;
      }
    }

    /** The loop of `call`: a program counter over stack, variables and frame. */
    method CallCode(frame: Frame) returns (r: Result<Context, Error>)
      ensures r == Run(frame, localVariables)
    {
      var context := START;
      r := Ok(context);
      var pc := 0;
      while pc < |localVariables| && r.Ok?
        invariant 0 <= pc <= |localVariables|
        invariant r == Run(frame, localVariables[..pc])
        invariant r.Err? ==> r == Run(frame, localVariables)
      {
        var ins := localVariables[pc];
        assert localVariables[..pc + 1] == localVariables[..pc] + [ins];
        assert localVariables[..pc + 1][..pc] == localVariables[..pc];
        r := Execute(r.value, frame, ins);
        pc := pc + 1;
        if r.Err? {
          RunFails(frame, localVariables, pc);
        }
      }
      assert pc == |localVariables| ==> localVariables[..pc] == localVariables;
    }
  }

  /** The arguments compiled so far, followed by the rest. */
  predicate Ahead(goal: Result<(seq<Instruction>, seq<Value>), Error>, values: seq<Value>,
                  rest: Result<(seq<Instruction>, seq<Value>), Error>)
  {
    match rest
    case Err(e) => goal == Err(e)
    case Ok(c) => goal == Ok((c.0, values + c.1))
  }

  lemma AheadStep(goal: Result<(seq<Instruction>, seq<Value>), Error>, values: seq<Value>, v: Value,
                  rest: Result<(seq<Instruction>, seq<Value>), Error>)
    requires Ahead(goal, values, match rest case Err(e) => Err(e) case Ok(c) => Ok((c.0, [v] + c.1)))
    ensures Ahead(goal, values + [v], rest)
  {
    if rest.Ok? {
      assert values + ([v] + rest.value.1) == values + [v] + rest.value.1;
    }
  }

  lemma {:induction false} RunFails(frame: Frame, code: seq<Instruction>, pc: nat)
    requires pc <= |code| && Run(frame, code[..pc]).Err?
    ensures Run(frame, code) == Run(frame, code[..pc])
    decreases |code| - pc
  {
    if pc == |code| {
      assert code[..pc] == code;
    } else {
      assert code[..pc + 1][..pc] == code[..pc];
      RunFails(frame, code, pc + 1);
    }
  }
}
