/** The arms of the expression checker that the source writes as loops
    reassigning a mutable context, each proved equal to the functional rule. */
module ExprArms {
  import opened Wrappers
  import opened Syntax
  import opened Contexts
  import opened Threading
  import opened ExprChecker

  /** The tuple element rule is the collecting visit with the element check. */
  lemma {:induction false} TupleElemsIsCollect(step: (Expr, VarContext) -> Step<BaseTyp, VarContext>,
      args: seq<Expr>, fns: FnContext, ctx: VarContext)
    requires forall a, c :: step(a, c) == CheckTupleElem(a, fns, c)
    ensures TupleElems(args, fns, ctx) == CollectAll(step, args, ctx)
    decreases |args|
  {
    if args != [] {
      TupleElemsIsCollect(step, args[1..], fns, CheckTupleElem(args[0], fns, ctx).state);
    }
  }

  /** The argument rule is the zipped walk with the argument check. */
  lemma {:induction false} CheckArgsIsZip(step: (Typ, Expr, VarContext) -> Checked<VarContext>,
      params: seq<Param>, args: seq<Expr>, fns: FnContext, ctx: VarContext)
    requires forall t, a, c :: step(t, a, c) == CheckArg(t, a, fns, c)
    ensures CheckArgs(params, args, fns, ctx) == ZipUntilErr(step, ParamTypes(params), args, ctx)
    decreases |args|
  {
    if params != [] && args != [] {
      assert ParamTypes(params)[0] == params[0].typ && ParamTypes(params)[1..] == ParamTypes(params[1..]);
      var c := CheckArg(params[0].typ, args[0], fns, ctx);
      if c.res.Ok? {
        CheckArgsIsZip(step, params[1..], args[1..], fns, c.res.value);
      }
    }
  }

  /** The parameter types of a signature, in order. */
  function ParamTypes(params: seq<Param>): (ts: seq<Typ>)
    ensures |ts| == |params| && forall i :: 0 <= i < |params| ==> ts[i] == params[i].typ
  {
    seq(|params|, i requires 0 <= i < |params| => params[i].typ)
  }

  /** The tuple arm: the element loop, then the combination of its results. */
  method TypecheckTuple(args: seq<Expr>, fns: FnContext, ctx: VarContext) returns (r: Checked<(Typ, VarContext)>)
    ensures r == CheckExpr(TupleExpr(args), fns, ctx)
  {
    var step := (a, c) => CheckTupleElem(a, fns, c);
    var run := CollectLoop(step, args, ctx);
    TupleElemsIsCollect(step, args, fns, ctx);
    match CheckVec(run.results) {
      case Ok(bases) => r := Checked(Ok((Typ(Consumed, Tuple(bases)), run.state)), run.log);
      case Err => r := Checked(Err, run.log);
    }
  }

  /** The argument loop shared by free and method calls. */
  method TypecheckArgs(params: seq<Param>, args: seq<Expr>, fns: FnContext, ctx: VarContext)
    returns (r: Checked<VarContext>)
    ensures r == CheckArgs(params, args, fns, ctx)
  {
    var step := (t, a, c) => CheckArg(t, a, fns, c);
    r := ZipLoop(step, ParamTypes(params), args, ctx);
    CheckArgsIsZip(step, params, args, fns, ctx);
  }

  /** The free-call arm: resolve the callee, report an arity mismatch without
      stopping, then run the argument loop. */
  method TypecheckFuncCall(f: Path, args: seq<Expr>, fns: FnContext, ctx: VarContext)
    returns (r: Checked<(Typ, VarContext)>)
    ensures r == CheckExpr(FuncCall(f, args), fns, ctx)
  {
    if !IsSimple(f) {
      return Checked(Err, [ForeignCall(f)]);
    }
    var key := Static(f.location[0]);
    if key !in fns {
      return Checked(Err, [UnknownFunction(f)]);
    }
    var sig := fns[key];
    var log: seq<Diag> := [];
    if |sig.args| != |args| {
      log := log + [ArityMismatch(|sig.args|, |args|)];
    }
    var c := TypecheckArgs(sig.args, args, fns, ctx);
    log := log + c.log;
    match c.res {
      case Err => r := Checked(Err, log);
      case Ok(ctx') => r := Checked(Ok((Typ(Consumed, sig.ret), ctx')), log);
    }
  }

  /** The method-call arm: check the receiver, resolve the method on its base type,
      append the receiver to the arguments and run the argument loop from the
      context left by the first check of the receiver. */
  method TypecheckMethodCall(recv: Expr, name: Ident, args: seq<Expr>, fns: FnContext, ctx: VarContext)
    returns (r: Checked<(Typ, VarContext)>)
    ensures r == CheckExpr(MethodCall(recv, name, args), fns, ctx)
  {
    var varContext := ctx;
    var c0 := CheckExpr(recv, fns, varContext);
    var log := c0.log;
    if c0.res.Err? {
      return Checked(Err, log);
    }
    var (selTyp, ctx1) := c0.res.value;
    varContext := ctx1;
    var key := Method(selTyp.base, name);
    if key !in fns {
      return Checked(Err, log + [UnknownMethod(selTyp.base, name)]);
    }
    var sig := fns[key];
    var allArgs := args + [recv];
    if |sig.args| != |allArgs| {
      log := log + [ArityMismatch(|sig.args|, |allArgs|)];
    }
    var c := TypecheckArgs(sig.args, allArgs, fns, varContext);
    log := log + c.log;
    match c.res {
      case Err => r := Checked(Err, log);
      case Ok(ctx') => r := Checked(Ok((Typ(Consumed, sig.ret), ctx')), log);
    }
  }
}
