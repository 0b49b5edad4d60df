/** What a script does to the columns of a frame, compared with ordinary assignment,
    where a name holds what it was assigned last.

    The machine reads the first definition of a name, and a slice that mentions a
    column sees what was written to it since. */
module AssignmentTheorems {
  import opened Results
  import opened Folding
  import opened FoldingTheorems

  // ------------------------------------------------------------ column contents

  /** The columns written so far, as expressions over the columns of the first frame. */
  type Contents = map<string, Slice>

  /** A slice, evaluated on a frame with these contents. */
  function Evaluate(s: Slice, cols: Contents): Slice {
    match s
    case Column(x) => if x in cols then cols[x] else s
    case UnarySlice(op, src) => UnarySlice(op, Evaluate(src, cols))
    case BinarySlice(op, lhs, rhs) => BinarySlice(op, Evaluate(lhs, cols), Evaluate(rhs, cols))
    case Reduced(op, src) => Reduced(op, Evaluate(src, cols))
    case When(c, a, b) => When(Evaluate(c, cols), Evaluate(a, cols), Evaluate(b, cols))
    case _ => s
  }

  /** The frame after its columns were written one after the other. */
  function Written(writes: seq<Write>): Contents {
    if writes == [] then map[]
    else
      var before := Written(writes[..|writes| - 1]);
      var last := writes[|writes| - 1];
      before[last.column := Evaluate(last.slice, before)]
  }

  /** What each write put into its column, over the columns of the first frame. */
  function History(writes: seq<Write>): seq<Write> {
    if writes == [] then []
    else
      var last := writes[|writes| - 1];
      History(writes[..|writes| - 1]) + [Write(last.column, Evaluate(last.slice, Written(writes[..|writes| - 1])))]
  }

  function Now(d: Datum, cols: Contents): Datum {
    match d case Lazy(s) => Lazy(Evaluate(s, cols)) case _ => d
  }

  function AllNow(ds: seq<Datum>, cols: Contents): seq<Datum> {
    if ds == [] then [] else [Now(ds[0], cols)] + AllNow(ds[1..], cols)
  }

  /** The machine's names, seen from the first frame. */
  function Seen(env: Env, cols: Contents): Env {
    map x | x in env :: Now(env[x], cols)
  }

  lemma WrittenMore(writes: seq<Write>, w: Write)
    ensures Written(writes + [w]) == Written(writes)[w.column := Evaluate(w.slice, Written(writes))]
    ensures History(writes + [w]) == History(writes) + [Write(w.column, Evaluate(w.slice, Written(writes)))]
  {
    assert (writes + [w])[..|writes|] == writes;
  }

  // -------------------------------------------------------- ordinary assignment

  function Lookup(p: bool, values: Env, x: string): Result<Datum, Error> {
    if x in values then Ok(values[x]) else if p then Ok(Lazy(Column(x))) else Err(UndefinedName)
  }

  /** The usual meaning: a name holds what it was assigned last, or else the column of
      the first frame. */
  function Direct(p: bool, values: Env, e: Expr): Result<Datum, Error>
    decreases e, 1, 0
  {
    match e
    case Const(r) => Ok(Number(r))
    case Var(x) => Lookup(p, values, x)
    case Unary(op, src) =>
      (match Direct(p, values, src) case Err(er) => Err(er) case Ok(a) => DoUnary(op, Known(a)))
    case Binary(op, lhs, rhs) =>
      (match Direct(p, values, lhs)
       case Err(er) => Err(er)
       case Ok(a) =>
         match Direct(p, values, rhs) case Err(er) => Err(er) case Ok(b) => DoBinary(op, Known(a), Known(b)))
    case Call(op, _) =>
      (match DirectArgs(p, values, e, 0)
       case Err(er) => Err(er)
       case Ok(ds) => DoFunction(op, AllKnown(ds)))
  }

  function DirectArgs(p: bool, values: Env, e: Expr, i: nat): Result<seq<Datum>, Error>
    requires e.Call? && i <= |e.args|
    decreases e, 0, |e.args| - i
  {
    if i == |e.args| then Ok([])
    else
      match Direct(p, values, e.args[i])
      case Err(er) => Err(er)
      case Ok(a) =>
        match DirectArgs(p, values, e, i + 1) case Err(er) => Err(er) case Ok(rest) => Ok([a] + rest)
  }

  function DirectScript(p: bool, heap: Heap, script: seq<Assignment>): Result<Heap, Error>
    decreases |script|
  {
    if script == [] then Ok(heap)
    else
      match Direct(p, heap.variables, script[0].source)
      case Err(e) => Err(e)
      case Ok(d) => DirectScript(p, Assigned(heap, script[0].target, d), script[1..])
  }

  predicate Reads(e: Expr, x: string) {
    match e
    case Const(_) => false
    case Var(y) => x == y
    case Unary(_, src) => Reads(src, x)
    case Binary(_, lhs, rhs) => Reads(lhs, x) || Reads(rhs, x)
    case Call(_, args) => exists a :: a in args && Reads(a, x)
  }

  // ------------------------------------------- evaluating on the frame of the day

  lemma UnaryNow(op: UnaryOp, d: Datum, cols: Contents)
    ensures var r := DoUnary(op, Known(d));
            DoUnary(op, Known(Now(d, cols))) == if r.Ok? then Ok(Now(r.value, cols)) else r
  {
  }

  lemma BinaryNow(op: BinaryOp, d: Datum, e: Datum, cols: Contents)
    ensures var r := DoBinary(op, Known(d), Known(e));
            DoBinary(op, Known(Now(d, cols)), Known(Now(e, cols))) == if r.Ok? then Ok(Now(r.value, cols)) else r
  {
    SliceNow(d, cols);
    SliceNow(e, cols);
    assert Operand(IsLogic(op), Known(d)).Ok? <==> Operand(IsLogic(op), Known(Now(d, cols))).Ok?;
  }

  lemma SliceNow(d: Datum, cols: Contents)
    ensures AsSlice(Now(d, cols)) == Evaluate(AsSlice(d), cols)
  {
  }

  lemma {:induction false} OperandsNow(ds: seq<Datum>, cols: Contents)
    ensures var r := AllOperands(AllKnown(ds));
            AllOperands(AllKnown(AllNow(ds, cols))) == if r.Ok? then Ok(AllNow(r.value, cols)) else r
    ensures |AllNow(ds, cols)| == |ds| == |AllKnown(ds)| == |AllKnown(AllNow(ds, cols))|
  {
    if ds == [] {
      assert AllKnown(ds) == [] && AllKnown(AllNow(ds, cols)) == [];
    } else {
      OperandsNow(ds[1..], cols);
      assert AllKnown(ds)[1..] == AllKnown(ds[1..]);
      assert AllNow(ds, cols)[1..] == AllNow(ds[1..], cols);
      assert AllKnown(AllNow(ds, cols))[1..] == AllKnown(AllNow(ds[1..], cols));
      var r := AllOperands(AllKnown(ds));
      if r.Ok? {
        assert r.value[1..] == AllOperands(AllKnown(ds[1..])).value;
      }
    }
  }

  lemma {:induction false} NowAt(ds: seq<Datum>, cols: Contents)
    ensures |AllNow(ds, cols)| == |ds|
    ensures forall i :: 0 <= i < |ds| ==> AllNow(ds, cols)[i] == Now(ds[i], cols)
  {
    if ds != [] {
      NowAt(ds[1..], cols);
    }
  }

  lemma {:induction false} AccumulatedNow(op: FunctionOp, ds: seq<Datum>, cols: Contents)
    requires ds != [] && !op.Custom? && forall d :: d in ds ==> !d.Feature?
    ensures forall d :: d in AllNow(ds, cols) ==> !d.Feature?
    ensures |AllNow(ds, cols)| == |ds|
    ensures var r := Accumulated(op, ds);
            Accumulated(op, AllNow(ds, cols)) == if r.Ok? then Ok(Now(r.value, cols)) else r
  {
    NowAt(ds, cols);
    if |ds| > 1 {
      AccumulatedNow(op, ds[1..], cols);
      assert AllNow(ds, cols)[1..] == AllNow(ds[1..], cols);
      var acc := Accumulated(op, ds[1..]);
      if acc.Ok? {
        AccumulateNow(op, acc.value, ds[0], cols);
      }
    }
  }

  lemma AccumulateNow(op: FunctionOp, acc: Datum, arg: Datum, cols: Contents)
    requires !op.Custom? && !acc.Feature? && !arg.Feature?
    ensures var r := Accumulate(op, acc, arg);
            Accumulate(op, Now(acc, cols), Now(arg, cols)) == if r.Ok? then Ok(Now(r.value, cols)) else r
  {
    if acc.Lazy? != arg.Lazy? {
      var s := if acc.Lazy? then acc.slice else arg.slice;
      var a, b := Reduced(op, s), FloatLiteral(if acc.Lazy? then arg.value else acc.value);
      var c := BinarySlice(if op.Max? then Ge else Le, a, b);
      assert Evaluate(a, cols) == Reduced(op, Evaluate(s, cols)) && Evaluate(b, cols) == b;
      assert Evaluate(c, cols) == BinarySlice(c.bop, Evaluate(a, cols), b);
      assert Evaluate(When(c, a, b), cols) == When(Evaluate(c, cols), Evaluate(a, cols), b);
    }
  }

  lemma FunctionNow(op: FunctionOp, ds: seq<Datum>, cols: Contents)
    ensures var r := DoFunction(op, AllKnown(ds));
            DoFunction(op, AllKnown(AllNow(ds, cols))) == if r.Ok? then Ok(Now(r.value, cols)) else r
  {
    OperandsNow(ds, cols);
    if !op.Custom? && ds != [] && AllOperands(AllKnown(ds)).Ok? {
      OperandsAreNoFeatures(AllKnown(ds));
      AccumulatedNow(op, AllOperands(AllKnown(ds)).value, cols);
    }
  }

  /** Values that agree on the names an expression reads give it the same meaning. */
  lemma {:induction false} DirectAgrees(p: bool, values: Env, others: Env, e: Expr)
    requires forall x :: Reads(e, x) ==> Lookup(p, values, x) == Lookup(p, others, x)
    ensures Direct(p, values, e) == Direct(p, others, e)
    decreases e, 1, 0
  {
    match e
    case Unary(_, src) => DirectAgrees(p, values, others, src);
    case Binary(_, lhs, rhs) =>
      DirectAgrees(p, values, others, lhs);
      DirectAgrees(p, values, others, rhs);
    case Call(_, _) => DirectArgsAgree(p, values, others, e, 0);
    case Var(x) => assert Reads(e, x);
    case _ =>
  }

  lemma {:induction false} DirectArgsAgree(p: bool, values: Env, others: Env, e: Expr, i: nat)
    requires e.Call? && i <= |e.args| && forall x :: Reads(e, x) ==> Lookup(p, values, x) == Lookup(p, others, x)
    ensures DirectArgs(p, values, e, i) == DirectArgs(p, others, e, i)
    decreases e, 0, |e.args| - i
  {
    if i < |e.args| {
      assert forall x :: Reads(e.args[i], x) ==> Reads(e, x);
      DirectAgrees(p, values, others, e.args[i]);
      DirectArgsAgree(p, values, others, e, i + 1);
    }
  }

  /** Evaluating only adds names that stand for columns never written. */
  ghost predicate Grew(p: bool, before: Env, after: Env) {
    && (forall x :: x in before ==> x in after && after[x] == before[x])
    && (forall x :: x in after && x !in before ==> p && after[x] == Lazy(Column(x)))
  }

  /** Only names were written. */
  ghost predicate ColumnsNamed(env: Env, cols: Contents) {
    forall x :: x in cols ==> x in env
  }

  lemma GrownLooksAlike(p: bool, before: Env, after: Env, cols: Contents, x: string)
    requires Grew(p, before, after) && ColumnsNamed(before, cols)
    ensures Lookup(p, Seen(after, cols), x) == Lookup(p, Seen(before, cols), x)
  {
  }

  /** The machine's value, seen from the first frame, is the usual meaning with the
      machine's names. */
  ghost predicate SeenAs(p: bool, env: Env, cols: Contents, r: Result<Evaluated, Error>, d: Result<Datum, Error>) {
    match r
    case Err(er) => d == Err(er)
    case Ok(ev) => d == Ok(Now(ev.datum, cols)) && Grew(p, env, ev.env)
  }

  lemma {:induction false} EvalIsSeen(p: bool, env: Env, cols: Contents, e: Expr)
    requires ColumnsNamed(env, cols)
    ensures SeenAs(p, env, cols, Eval(p, Columns, env, e), Direct(p, Seen(env, cols), e))
    decreases e, 1, 0
  {
    match e
    case Unary(op, src) =>
      EvalIsSeen(p, env, cols, src);
      var a := Eval(p, Columns, env, src);
      if a.Ok? {
        UnaryNow(op, a.value.datum, cols);
      }
    case Binary(op, lhs, rhs) =>
      EvalIsSeen(p, env, cols, lhs);
      var a := Eval(p, Columns, env, lhs);
      if a.Ok? {
        EvalIsSeen(p, a.value.env, cols, rhs);
        SameAfterGrowth(p, env, a.value.env, cols, rhs);
        var b := Eval(p, Columns, a.value.env, rhs);
        if b.Ok? {
          BinaryNow(op, a.value.datum, b.value.datum, cols);
        }
      }
    case Call(op, _) =>
      EvalArgsAreSeen(p, env, cols, e, 0);
      var a := EvalArgs(p, Columns, env, e, 0);
      if a.Ok? {
        FunctionNow(op, a.value.1, cols);
      }
    case _ =>
  }

  lemma SameAfterGrowth(p: bool, before: Env, after: Env, cols: Contents, e: Expr)
    requires Grew(p, before, after) && ColumnsNamed(before, cols)
    ensures Direct(p, Seen(after, cols), e) == Direct(p, Seen(before, cols), e)
  {
    forall x ensures Lookup(p, Seen(after, cols), x) == Lookup(p, Seen(before, cols), x) {
      GrownLooksAlike(p, before, after, cols, x);
    }
    DirectAgrees(p, Seen(after, cols), Seen(before, cols), e);
  }

  ghost predicate ArgsSeenAs(p: bool, env: Env, cols: Contents, r: Result<(Env, seq<Datum>), Error>,
                             ds: Result<seq<Datum>, Error>)
  {
    match r
    case Err(er) => ds == Err(er)
    case Ok(ev) => ds == Ok(AllNow(ev.1, cols)) && Grew(p, env, ev.0)
  }

  lemma {:induction false} EvalArgsAreSeen(p: bool, env: Env, cols: Contents, e: Expr, i: nat)
    requires ColumnsNamed(env, cols) && e.Call? && i <= |e.args|
    ensures ArgsSeenAs(p, env, cols, EvalArgs(p, Columns, env, e, i), DirectArgs(p, Seen(env, cols), e, i))
    decreases e, 0, |e.args| - i
  {
    if i < |e.args| {
      EvalIsSeen(p, env, cols, e.args[i]);
      var a := Eval(p, Columns, env, e.args[i]);
      if a.Ok? {
        EvalArgsAreSeen(p, a.value.env, cols, e, i + 1);
        forall x ensures Lookup(p, Seen(a.value.env, cols), x) == Lookup(p, Seen(env, cols), x) {
          GrownLooksAlike(p, env, a.value.env, cols, x);
        }
        DirectArgsAgree(p, Seen(a.value.env, cols), Seen(env, cols), e, i + 1);
        var rest := EvalArgs(p, Columns, a.value.env, e, i + 1);
        if rest.Ok? {
          assert ([a.value.datum] + rest.value.1)[1..] == rest.value.1;
        }
      }
    }
  }

  // ------------------------------------------------------------------- freshness

  /** The machine and ordinary assignment, in the middle of a script. */
  datatype State = State(env: Env, heap: Heap, ordinary: Heap)

  /** Reading the name gives something else than what it was assigned last. */
  predicate Stale(p: bool, st: State, x: string) {
    Lookup(p, Seen(st.env, Written(st.heap.writes)), x) != Lookup(p, st.ordinary.variables, x)
  }

  /** So far the columns were written alike. */
  ghost predicate InStep(st: State) {
    && History(st.heap.writes) == st.ordinary.writes
    && ColumnsNamed(st.env, Written(st.heap.writes))
  }

  function Next(st: State, x: string, a: Evaluated, d: Datum): State {
    State(First(a.env, x, a.datum), Assigned(st.heap, x, a.datum), Assigned(st.ordinary, x, d))
  }

  /** No expression of the script reads a stale name, up to the first failure. */
  ghost predicate ReadsFresh(p: bool, st: State, script: seq<Assignment>)
    decreases |script|
  {
    script == [] ||
    (&& (forall x :: Reads(script[0].source, x) ==> !Stale(p, st, x))
     && (var a, d := Eval(p, Columns, st.env, script[0].source), Direct(p, st.ordinary.variables, script[0].source);
         a.Ok? && d.Ok? ==> ReadsFresh(p, Next(st, script[0].target, a.value, d.value), script[1..])))
  }

  /** Every write put the ordinary contents into its column, or both failed alike. */
  predicate SameColumns(r: Result<Heap, Error>, d: Result<Heap, Error>) {
    match r
    case Err(e) => d == Err(e)
    case Ok(heap) => d.Ok? && History(heap.writes) == d.value.writes
  }

  lemma AssignedInStep(st: State, x: string, a: Evaluated, d: Datum, p: bool)
    requires InStep(st) && Grew(p, st.env, a.env) && d == Now(a.datum, Written(st.heap.writes))
    ensures InStep(Next(st, x, a, d))
  {
    WrittenMore(st.heap.writes, Write(x, AsSlice(a.datum)));
  }

  lemma {:induction false} FreshIsOrdinary(p: bool, st: State, script: seq<Assignment>)
    requires InStep(st) && ReadsFresh(p, st, script)
    ensures SameColumns(EvalScript(p, Columns, st.env, st.heap, script), DirectScript(p, st.ordinary, script))
    decreases |script|
  {
    if script != [] {
      var e, cols := script[0].source, Written(st.heap.writes);
      EvalIsSeen(p, st.env, cols, e);
      DirectAgrees(p, Seen(st.env, cols), st.ordinary.variables, e);
      var a := Eval(p, Columns, st.env, e);
      if a.Ok? {
        var d := Now(a.value.datum, cols);
        AssignedInStep(st, script[0].target, a.value, d, p);
        FreshIsOrdinary(p, Next(st, script[0].target, a.value, d), script[1..]);
      }
    }
  }

  const BEGIN := State(map[], Heap(map[], []), Heap(map[], []))

  /** The run wrote the ordinary contents into every column, or failed as ordinary
      assignment does. */
  predicate RunIsOrdinary(run: Result<Context, Error>, d: Result<Heap, Error>) {
    match run
    case Err(e) => d == Err(e)
    case Ok(c) => d.Ok? && History(c.writes) == d.value.writes
  }

  /** Compiling and running a script that reads no stale name, and comes to no empty
      call, does to the columns what ordinary assignment does. */
  lemma FoldingIsOrdinary(p: bool, script: seq<Assignment>)
    requires ReadsFresh(p, BEGIN, script)
    ensures var compiled, d := CompileScript(p, [], script), DirectScript(p, Heap(map[], []), script);
            if compiled.Err? then d.Err?
            else !Reached(Columns, compiled.value) ==> RunIsOrdinary(Run(Columns, compiled.value), d)
  {
    FoldingPreservesMeaning(p, Columns, script);
    FreshIsOrdinary(p, BEGIN, script);
  }

  /** The machine gives the expression its ordinary meaning. */
  ghost predicate MeansOrdinary(p: bool, st: State, e: Expr) {
    SeenAs(p, st.env, Written(st.heap.writes), Eval(p, Columns, st.env, e), Direct(p, st.ordinary.variables, e))
  }

  /** After any script, the machine gives every next expression its ordinary meaning if
      and only if no name is stale. */
  lemma OrdinaryExactly(p: bool, st: State)
    requires InStep(st)
    ensures (forall e :: MeansOrdinary(p, st, e)) <==> forall x :: !Stale(p, st, x)
  {
    var cols := Written(st.heap.writes);
    forall e ensures SeenAs(p, st.env, cols, Eval(p, Columns, st.env, e), Direct(p, Seen(st.env, cols), e)) {
      EvalIsSeen(p, st.env, cols, e);
    }
    if forall x :: !Stale(p, st, x) {
      forall x ensures Lookup(p, Seen(st.env, cols), x) == Lookup(p, st.ordinary.variables, x) {
        assert !Stale(p, st, x);
      }
      forall e ensures MeansOrdinary(p, st, e) {
        DirectAgrees(p, Seen(st.env, cols), st.ordinary.variables, e);
      }
    }
    if forall e :: MeansOrdinary(p, st, e) {
      forall x ensures !Stale(p, st, x) {
        assert MeansOrdinary(p, st, Var(x));
        assert Direct(p, Seen(st.env, cols), Var(x)) == Direct(p, st.ordinary.variables, Var(x));
      }
    }
  }

  // ------------------------------------------------------- scripts on columns only

  predicate ConstantFree(e: Expr) {
    match e
    case Const(_) => false
    case Var(_) => true
    case Unary(_, src) => ConstantFree(src)
    case Binary(_, lhs, rhs) => ConstantFree(lhs) && ConstantFree(rhs)
    case Call(_, args) => forall a :: a in args ==> ConstantFree(a)
  }

  predicate AllLazy(values: Env) {
    forall x :: x in values ==> values[x].Lazy?
  }

  lemma {:induction false} ManySlicesFail(op: FunctionOp, ds: seq<Datum>)
    requires |ds| > 1 && !op.Custom? && forall d :: d in ds ==> d.Lazy?
    ensures Accumulated(op, ds).Err?
  {
    if |ds| > 2 {
      ManySlicesFail(op, ds[1..]);
    }
  }

  lemma {:induction false} LazyOperands(ds: seq<Datum>)
    requires forall d :: d in ds ==> d.Lazy?
    ensures AllOperands(AllKnown(ds)) == Ok(ds) && |AllKnown(ds)| == |ds|
  {
    if ds == [] {
      assert AllKnown(ds) == [];
    } else {
      assert ds == [ds[0]] + ds[1..] && ds[0] in ds;
      LazyOperands(ds[1..]);
      assert AllKnown(ds)[1..] == AllKnown(ds[1..]);
    }
  }

  /** A function of slices is only defined on one, and returns it. */
  lemma LazyFunction(op: FunctionOp, ds: seq<Datum>)
    requires forall d :: d in ds ==> d.Lazy?
    ensures DoFunction(op, AllKnown(ds)).Ok? ==> |ds| == 1 && DoFunction(op, AllKnown(ds)) == Ok(ds[0])
  {
    LazyOperands(ds);
    if !op.Custom? && |ds| > 1 {
      ManySlicesFail(op, ds);
    }
  }

  lemma {:induction false} DirectLazy(p: bool, values: Env, e: Expr)
    requires ConstantFree(e) && AllLazy(values) && Direct(p, values, e).Ok?
    ensures Direct(p, values, e).value.Lazy?
    decreases e, 1, 0
  {
    match e
    case Unary(_, src) => DirectLazy(p, values, src);
    case Binary(_, lhs, rhs) =>
      DirectLazy(p, values, lhs);
      DirectLazy(p, values, rhs);
    case Call(op, _) =>
      DirectArgsLazy(p, values, e, 0);
      LazyFunction(op, DirectArgs(p, values, e, 0).value);
    case _ =>
  }

  lemma {:induction false} DirectArgsLazy(p: bool, values: Env, e: Expr, i: nat)
    requires e.Call? && i <= |e.args| && ConstantFree(e) && AllLazy(values) && DirectArgs(p, values, e, i).Ok?
    ensures |DirectArgs(p, values, e, i).value| == |e.args| - i
    ensures forall d :: d in DirectArgs(p, values, e, i).value ==> d.Lazy?
    ensures i < |e.args| ==> Direct(p, values, e.args[i]) == Ok(DirectArgs(p, values, e, i).value[0])
    decreases e, 0, |e.args| - i
  {
    if i < |e.args| {
      DirectLazy(p, values, e.args[i]);
      DirectArgsLazy(p, values, e, i + 1);
    }
  }

  /** An expression over columns tells the values of all names it reads. */
  lemma {:induction false} DirectTells(p: bool, values: Env, others: Env, e: Expr, x: string)
    requires ConstantFree(e) && AllLazy(values) && AllLazy(others) && Reads(e, x)
    requires Direct(p, values, e).Ok? && Direct(p, values, e) == Direct(p, others, e)
    ensures Lookup(p, values, x) == Lookup(p, others, x)
    decreases e
  {
    match e
    case Unary(_, src) =>
      DirectLazy(p, values, src);
      DirectLazy(p, others, src);
      DirectTells(p, values, others, src, x);
    case Binary(_, lhs, rhs) =>
      DirectLazy(p, values, lhs);
      DirectLazy(p, values, rhs);
      DirectLazy(p, others, lhs);
      DirectLazy(p, others, rhs);
      DirectTells(p, values, others, if Reads(lhs, x) then lhs else rhs, x);
    case Call(op, args) =>
      DirectArgsLazy(p, values, e, 0);
      DirectArgsLazy(p, others, e, 0);
      LazyFunction(op, DirectArgs(p, values, e, 0).value);
      LazyFunction(op, DirectArgs(p, others, e, 0).value);
      DirectTells(p, values, others, args[0], x);
    case _ =>
  }

  /** Writes are only appended. */
  lemma {:induction false} ScriptAppends(p: bool, st: State, script: seq<Assignment>)
    ensures var r := EvalScript(p, Columns, st.env, st.heap, script);
            r.Ok? ==> History(st.heap.writes) <= History(r.value.writes)
    ensures var d := DirectScript(p, st.ordinary, script);
            d.Ok? ==> st.ordinary.writes <= d.value.writes
    decreases |script|
  {
    if script != [] {
      var a, d := Eval(p, Columns, st.env, script[0].source), Direct(p, st.ordinary.variables, script[0].source);
      if a.Ok? {
        WrittenMore(st.heap.writes, Write(script[0].target, AsSlice(a.value.datum)));
      }
      ScriptAppends(p, Next(st, script[0].target, if a.Ok? then a.value else Evaluated(st.env, Feature(true)),
                            if d.Ok? then d.value else Feature(true)), script[1..]);
    }
  }

  /** For scripts over columns the condition is exact: a run that succeeds writes the
      ordinary contents into every column if and only if no expression reads a stale
      name. */
  lemma {:induction false} FreshExactly(p: bool, st: State, script: seq<Assignment>)
    requires InStep(st) && AllLazy(st.env) && AllLazy(st.ordinary.variables)
    requires forall a :: a in script ==> ConstantFree(a.source)
    requires EvalScript(p, Columns, st.env, st.heap, script).Ok?
    ensures SameColumns(EvalScript(p, Columns, st.env, st.heap, script), DirectScript(p, st.ordinary, script))
            <==> ReadsFresh(p, st, script)
    decreases |script|
  {
    if ReadsFresh(p, st, script) {
      FreshIsOrdinary(p, st, script);
    } else if DirectScript(p, st.ordinary, script).Ok? {
      StaleShows(p, st, script);
    }
  }

  lemma {:induction false} StaleShows(p: bool, st: State, script: seq<Assignment>)
    requires InStep(st) && AllLazy(st.env) && AllLazy(st.ordinary.variables) && !ReadsFresh(p, st, script)
    requires forall a :: a in script ==> ConstantFree(a.source)
    requires EvalScript(p, Columns, st.env, st.heap, script).Ok? && DirectScript(p, st.ordinary, script).Ok?
    ensures !SameColumns(EvalScript(p, Columns, st.env, st.heap, script), DirectScript(p, st.ordinary, script))
    decreases |script|, 1
  {
    var e, x, cols := script[0].source, script[0].target, Written(st.heap.writes);
    assert script[0] in script;
    var a, d := Eval(p, Columns, st.env, e).value, Direct(p, st.ordinary.variables, e).value;
    EvalIsSeen(p, st.env, cols, e);
    if Now(a.datum, cols) == d {
      SameValueIsFresh(p, st, e);
      AssignedInStep(st, x, a, d, p);
      DirectLazy(p, st.ordinary.variables, e);
      LazyNext(p, st, x, a, d);
      StaleShows(p, Next(st, x, a, d), script[1..]);
    } else {
      DirectLazy(p, Seen(st.env, cols), e);
      DirectLazy(p, st.ordinary.variables, e);
      SliceNow(a.datum, cols);
      OtherContentsShow(p, st, script, a, d);
    }
  }

  lemma SameValueIsFresh(p: bool, st: State, e: Expr)
    requires AllLazy(st.env) && AllLazy(st.ordinary.variables) && ConstantFree(e)
    requires var cols := Written(st.heap.writes);
             Direct(p, Seen(st.env, cols), e).Ok? && Direct(p, Seen(st.env, cols), e) == Direct(p, st.ordinary.variables, e)
    ensures forall x :: Reads(e, x) ==> !Stale(p, st, x)
  {
    forall x | Reads(e, x) ensures !Stale(p, st, x) {
      DirectTells(p, Seen(st.env, Written(st.heap.writes)), st.ordinary.variables, e, x);
    }
  }

  lemma LazyNext(p: bool, st: State, x: string, a: Evaluated, d: Datum)
    requires AllLazy(st.env) && AllLazy(st.ordinary.variables)
    requires Grew(p, st.env, a.env) && a.datum.Lazy? && d.Lazy?
    ensures AllLazy(Next(st, x, a, d).env) && AllLazy(Next(st, x, a, d).ordinary.variables)
  {
  }

  /** Contents that differ at one write are not mended by later ones. */
  lemma OtherContentsShow(p: bool, st: State, script: seq<Assignment>, a: Evaluated, d: Datum)
    requires InStep(st) && script != []
    requires Eval(p, Columns, st.env, script[0].source) == Ok(a) && Direct(p, st.ordinary.variables, script[0].source) == Ok(d)
    requires Evaluate(AsSlice(a.datum), Written(st.heap.writes)) != AsSlice(d)
    ensures !SameColumns(EvalScript(p, Columns, st.env, st.heap, script), DirectScript(p, st.ordinary, script))
            || EvalScript(p, Columns, st.env, st.heap, script).Err?
  {
    var x, k := script[0].target, |st.ordinary.writes|;
    WrittenMore(st.heap.writes, Write(x, AsSlice(a.datum)));
    ScriptAppends(p, Next(st, x, a, d), script[1..]);
    var r, o := EvalScript(p, Columns, st.env, st.heap, script), DirectScript(p, st.ordinary, script);
    if r.Ok? && o.Ok? {
      assert History(r.value.writes)[k] == Write(x, Evaluate(AsSlice(a.datum), Written(st.heap.writes)));
      assert o.value.writes[k] == Write(x, AsSlice(d));
    }
  }

  // ------------------------------------------------------------------- examples

  /** The machine's and the ordinary contents of the columns after a script. */
  ghost predicate Ends(p: bool, script: seq<Assignment>, machine: seq<Write>, ordinary: seq<Write>) {
    var r, d := EvalScript(p, Columns, map[], Heap(map[], []), script), DirectScript(p, Heap(map[], []), script);
    r.Ok? && d.Ok? && History(r.value.writes) == machine && d.value.writes == ordinary
  }

  /** One statement of a script, on both sides. */
  lemma OneStatement(p: bool, st: State, script: seq<Assignment>, a: Evaluated, d: Datum)
    requires script != [] && Eval(p, Columns, st.env, script[0].source) == Ok(a)
    requires Direct(p, st.ordinary.variables, script[0].source) == Ok(d)
    ensures var next := Next(st, script[0].target, a, d);
            && EvalScript(p, Columns, st.env, st.heap, script) == EvalScript(p, Columns, next.env, next.heap, script[1..])
            && DirectScript(p, st.ordinary, script) == DirectScript(p, next.ordinary, script[1..])
            && History(next.heap.writes) ==
               History(st.heap.writes) + [Write(script[0].target, Evaluate(AsSlice(a.datum), Written(st.heap.writes)))]
            && Written(next.heap.writes) ==
               Written(st.heap.writes)[script[0].target := Evaluate(AsSlice(a.datum), Written(st.heap.writes))]
            && (ReadsFresh(p, st, script) ==> ReadsFresh(p, next, script[1..]))
  {
    WrittenMore(st.heap.writes, Write(script[0].target, AsSlice(a.datum)));
  }

  function Filled(r: real): Slice {
    AsSlice(Number(r))
  }

  /** The state after a name was assigned two numbers. */
  lemma TwoNumbers(p: bool, a: string, r: real, s: real, last: Assignment) returns (st: State)
    ensures st.env == map[a := Number(r)] && st.ordinary.variables == map[a := Number(s)]
    ensures History(st.heap.writes) == [Write(a, Filled(r)), Write(a, Filled(s))] == st.ordinary.writes
    ensures Written(st.heap.writes) == map[a := Filled(s)]
    ensures var script := [Assignment(a, Const(r)), Assignment(a, Const(s)), last];
            && EvalScript(p, Columns, map[], Heap(map[], []), script) == EvalScript(p, Columns, st.env, st.heap, [last])
            && DirectScript(p, Heap(map[], []), script) == DirectScript(p, st.ordinary, [last])
            && (ReadsFresh(p, BEGIN, script) ==> ReadsFresh(p, st, [last]))
  {
    var second := Assignment(a, Const(s));
    var first := OneNumber(p, BEGIN, a, r, [second, last]);
    st := OneNumber(p, first, a, s, [last]);
    assert [Assignment(a, Const(r)), second, last] == [Assignment(a, Const(r))] + [second, last];
    assert [second, last] == [second] + [last];
  }

  lemma OneNumber(p: bool, st: State, a: string, r: real, rest: seq<Assignment>) returns (next: State)
    ensures next == Next(st, a, Evaluated(st.env, Number(r)), Number(r))
    ensures var script := [Assignment(a, Const(r))] + rest;
            && EvalScript(p, Columns, st.env, st.heap, script) == EvalScript(p, Columns, next.env, next.heap, rest)
            && DirectScript(p, st.ordinary, script) == DirectScript(p, next.ordinary, rest)
            && (ReadsFresh(p, st, script) ==> ReadsFresh(p, next, rest))
    ensures History(next.heap.writes) == History(st.heap.writes) + [Write(a, Filled(r))]
    ensures Written(next.heap.writes) == Written(st.heap.writes)[a := Filled(r)]
  {
    var script := [Assignment(a, Const(r))] + rest;
    next := Next(st, a, Evaluated(st.env, Number(r)), Number(r));
    OneStatement(p, st, script, Evaluated(st.env, Number(r)), Number(r));
    assert script[1..] == rest;
  }

  /** A second assignment of a number is not seen by readers. */
  lemma ReassignmentIsIgnored(p: bool, a: string, b: string, r: real, s: real)
    requires a != b
    ensures Ends(p, [Assignment(a, Const(r)), Assignment(a, Const(s)), Assignment(b, Var(a))],
                 [Write(a, Filled(r)), Write(a, Filled(s)), Write(b, Filled(r))],
                 [Write(a, Filled(r)), Write(a, Filled(s)), Write(b, Filled(s))])
  {
    var last := Assignment(b, Var(a));
    var st := TwoNumbers(p, a, r, s, last);
    OneStatement(p, st, [last], Evaluated(st.env, Number(r)), Number(s));
    assert [last][1..] == [];
  }

  /** A column that was read first and is then written shows its new contents: the
      machine's first definition is the column itself. */
  lemma WrittenColumnIsSeen(x: string, y: string)
    requires x != y
    ensures var negated := UnarySlice(Neg, Column(x));
            Ends(true, [Assignment(x, Unary(Neg, Var(x))), Assignment(y, Var(x))],
                 [Write(x, negated), Write(y, negated)], [Write(x, negated), Write(y, negated)])
  {
    var script := [Assignment(x, Unary(Neg, Var(x))), Assignment(y, Var(x))];
    var column, negated := Lazy(Column(x)), Lazy(UnarySlice(Neg, Column(x)));
    var first := Next(BEGIN, x, Evaluated(BEGIN.env[x := column], negated), negated);
    OneStatement(true, BEGIN, script, Evaluated(BEGIN.env[x := column], negated), negated);
    OneStatement(true, first, script[1..], Evaluated(first.env, column), negated);
    assert script[1..][1..] == [];
  }

  /** But a slice computed from the column before follows it to its new contents. */
  lemma ReusedSliceFollowsColumn(x: string, y: string, z: string, w: string)
    requires x != y && x != z && x != w && y != z && y != w && z != w
    ensures var asWas, asIs := UnarySlice(Neg, Column(x)), UnarySlice(Neg, Column(y));
            Ends(true, [Assignment(z, Unary(Neg, Var(x))), Assignment(x, Var(y)), Assignment(w, Var(z))],
                 [Write(z, asWas), Write(x, Column(y)), Write(w, asIs)],
                 [Write(z, asWas), Write(x, Column(y)), Write(w, asWas)])
  {
    var script := [Assignment(z, Unary(Neg, Var(x))), Assignment(x, Var(y)), Assignment(w, Var(z))];
    var cx, cy, negated := Lazy(Column(x)), Lazy(Column(y)), Lazy(UnarySlice(Neg, Column(x)));
    var first := Next(BEGIN, z, Evaluated(BEGIN.env[x := cx], negated), negated);
    var second := Next(first, x, Evaluated(first.env[y := cy], cy), cy);
    OneStatement(true, BEGIN, script, Evaluated(BEGIN.env[x := cx], negated), negated);
    OneStatement(true, first, script[1..], Evaluated(first.env[y := cy], cy), cy);
    OneStatement(true, second, script[1..][1..], Evaluated(second.env, negated), negated);
    assert script[1..][1..][1..] == [];
  }

  /** A stale read need not show: the difference of a number with itself is zero. So
      with constants the condition is not necessary. */
  lemma StaleReadMayNotShow(p: bool, a: string, b: string)
    requires a != b
    ensures var script := [Assignment(a, Const(1.0)), Assignment(a, Const(2.0)), Assignment(b, Binary(Sub, Var(a), Var(a)))];
            var columns := [Write(a, Filled(1.0)), Write(a, Filled(2.0)), Write(b, Filled(0.0))];
            Ends(p, script, columns, columns) && !ReadsFresh(p, BEGIN, script)
  {
    var e := Binary(Sub, Var(a), Var(a));
    var last := Assignment(b, e);
    var st := TwoNumbers(p, a, 1.0, 2.0, last);
    OneStatement(p, st, [last], Evaluated(st.env, Number(0.0)), Number(0.0));
    assert [last][1..] == [];
    assert Reads(e, a) && Stale(p, st, a);
    assert !ReadsFresh(p, st, [last]);
  }
}
