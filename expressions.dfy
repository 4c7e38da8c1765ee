/** The expression checker: the inferred type of an expression together with the
    variable context left after evaluating it, threaded strictly left to right. */
module ExprChecker {
  import opened Wrappers
  import opened Syntax
  import opened TypeRules
  import opened Contexts
  import opened Threading

  /** Termination measure: the method-call rule re-checks the receiver as an extra
      argument, so the argument list it checks is not a sub-term of the call. */
  function ExprSize(e: Expr): nat
    decreases e
  {
    match e
    case TupleExpr(args) => 1 + ListSize(args)
    case NamedExpr(_) => 1
    case Binary(l, r) => 1 + ExprSize(l) + ExprSize(r)
    case Unary(inner) => 1 + ExprSize(inner)
    case Lit(_) => 1
    case ArrayIndex(a, i) => 1 + ExprSize(a) + ExprSize(i)
    case FuncCall(_, args) => 1 + ListSize(args)
    case MethodCall(recv, _, args) => 1 + ExprSize(recv) + ListSize(args)
  }

  function ListSize(es: seq<Expr>): nat
    decreases es
  {
    if es == [] then 0 else ExprSize(es[0]) + ListSize(es[1..])
  }

  lemma {:induction false} ListSizeAppend(es: seq<Expr>, e: Expr)
    ensures ListSize(es + [e]) == ListSize(es) + ExprSize(e)
  {
    if es == [] {
      assert [e][1..] == [];
    } else {
      assert (es + [e])[1..] == es[1..] + [e];
      ListSizeAppend(es[1..], e);
    }
  }

  /** The base type of each literal kind. */
  function LitType(l: Literal): BaseTyp
  {
    match l
    case BoolLit(_) => Bool
    case Int128Lit(_) => Int128
    case UInt128Lit(_) => UInt128
    case Int64Lit(_) => Int64
    case UInt64Lit(_) => UInt64
    case Int32Lit(_) => Int32
    case UInt32Lit(_) => UInt32
    case Int16Lit(_) => Int16
    case UInt16Lit(_) => UInt16
    case Int8Lit(_) => Int8
    case UInt8Lit(_) => UInt8
    case UsizeLit(_) => Usize
    case IsizeLit(_) => Isize
  }

  /** A use of a variable of this type moves it out of the context. */
  predicate Moves(t: Typ) {
    t.mode == Consumed && !IsCopy(t.base)
  }

  /** Identifier reference. Qualified or templated names and unbound names fail;
      a Consumed non-copy variable is moved out of the context; a copy or Borrowed
      variable stays. */
  function CheckIdent(p: Path, ctx: VarContext): (r: Checked<(Typ, VarContext)>)
    ensures r.res.Ok? <==> IsSimple(p) && p.location[0] in ctx
    ensures r.res.Err? ==> r.log == [UnknownVariable(p)]
    ensures r.res.Ok? ==>
      var x, (t, ctx') := p.location[0], r.res.value;
      && r.log == []
      && t == ctx[x]
      && ctx'.Keys == (if Moves(t) then ctx.Keys - {x} else ctx.Keys)
      && forall y :: y in ctx' ==> ctx'[y] == ctx[y]
  {
    if IsSimple(p) then
      var x := p.location[0];
      if x !in ctx then Checked(Err, [UnknownVariable(p)])
      else
        var t := ctx[x];
        if t.mode == Consumed then
          if IsCopy(t.base) then Checked(Ok((t, ctx)), [])
          else Checked(Ok((t, ctx - {x})), [])
        else Checked(Ok((t, ctx)), [])
    else
      Checked(Err, [UnknownVariable(p)])
  }

  /** One tuple element. A failed check leaves the context as it was; a Borrowed
      element has already updated the context when it is refused. */
  function CheckTupleElem(arg: Expr, fns: FnContext, ctx: VarContext): Step<BaseTyp, VarContext>
    decreases ExprSize(arg), 4
  {
    var c := CheckExpr(arg, fns, ctx);
    match c.res
    case Err => Step(Err, ctx, c.log)
    case Ok((t, ctx1)) =>
      if t.mode == Borrowed then Step(Err, ctx1, c.log + [BorrowedInTuple])
      else Step(Ok(t.base), ctx1, c.log)
  }

  /** Checks every element of a tuple literal in order, threading the context.
      All elements are visited, also after one has failed. */
  function TupleElems(args: seq<Expr>, fns: FnContext, ctx: VarContext): (r: Run<BaseTyp, VarContext>)
    ensures |r.results| == |args|
    decreases ListSize(args), 5
  {
    if args == [] then Run([], ctx, [])
    else
      var c := CheckTupleElem(args[0], fns, ctx);
      var rest := TupleElems(args[1..], fns, c.state);
      Run([c.res] + rest.results, rest.state, c.log + rest.log)
  }

  /** Combines the element results: a tuple of the element base types, Consumed,
      when every element succeeded. */
  function TupleResult(run: Run<BaseTyp, VarContext>): Checked<(Typ, VarContext)>
  {
    match CheckVec(run.results)
    case Ok(bases) => Checked(Ok((Typ(Consumed, Tuple(bases)), run.state)), run.log)
    case Err => Checked(Err, run.log)
  }

  /** One call argument against its parameter type: the argument must check, its
      borrowing mode must equal the parameter's (a mismatch in either direction is
      reported differently) and its base type must equal the parameter's. */
  function CheckArg(sigT: Typ, arg: Expr, fns: FnContext, ctx: VarContext): Checked<VarContext>
    decreases ExprSize(arg), 4
  {
    var c := CheckExpr(arg, fns, ctx);
    match c.res
    case Err => Checked(Err, c.log)
    case Ok((t, ctx1)) =>
      if t.mode == Consumed && sigT.mode == Borrowed then Checked(Err, c.log + [ExpectedBorrow])
      else if t.mode == Borrowed && sigT.mode == Consumed then Checked(Err, c.log + [SuperfluousBorrow])
      else if t.base != sigT.base then Checked(Err, c.log + [ArgTypeMismatch(sigT.base, t.base)])
      else Checked(Ok(ctx1), c.log)
  }

  /** Checks call arguments against parameters, pairwise over the shorter of the two
      lists, threading the context; the first failing argument aborts the call. */
  function CheckArgs(params: seq<Param>, args: seq<Expr>, fns: FnContext, ctx: VarContext): Checked<VarContext>
    decreases ListSize(args), 5
  {
    if params == [] || args == [] then Checked(Ok(ctx), [])
    else
      var c := CheckArg(params[0].typ, args[0], fns, ctx);
      match c.res
      case Err => Checked(Err, c.log)
      case Ok(ctx1) =>
        var rest := CheckArgs(params[1..], args[1..], fns, ctx1);
        Checked(rest.res, c.log + rest.log)
  }

  /** The arity diagnostic of a call site; reporting it does not stop the check. */
  function ArityLog(expected: nat, got: nat): seq<Diag>
  {
    if expected != got then [ArityMismatch(expected, got)] else []
  }

  /** The expression checker: dispatches on the expression form. */
  function CheckExpr(e: Expr, fns: FnContext, ctx: VarContext): Checked<(Typ, VarContext)>
    decreases ExprSize(e), 3
  {
    match e
    case TupleExpr(args) => TupleResult(TupleElems(args, fns, ctx))
    case NamedExpr(p) => CheckIdent(p, ctx)
    case Binary(e1, e2) => CheckBinary(e1, e2, fns, ctx)
    case Unary(e1) => CheckExpr(e1, fns, ctx)
    case Lit(l) => Checked(Ok((Typ(Consumed, LitType(l)), ctx)), [])
    case ArrayIndex(e1, e2) => CheckIndex(e1, e2, fns, ctx)
    case FuncCall(f, args) => CheckFuncCall(f, args, fns, ctx)
    case MethodCall(recv, name, args) => CheckMethodCall(recv, name, args, fns, ctx)
  }

  /** Binary operator: left operand, then right operand from the left's context;
      the two types must be equal and the left one is the result. */
  function CheckBinary(e1: Expr, e2: Expr, fns: FnContext, ctx: VarContext): Checked<(Typ, VarContext)>
    decreases ExprSize(Binary(e1, e2)), 2
  {
    var c1 := CheckExpr(e1, fns, ctx);
    if c1.res.Err? then Checked(Err, c1.log)
    else
      var (t1, ctx1) := c1.res.value;
      var c2 := CheckExpr(e2, fns, ctx1);
      if c2.res.Err? then Checked(Err, c1.log + c2.log)
      else
        var (t2, ctx2) := c2.res.value;
        if !EqualTypes(t1, t2) then Checked(Err, c1.log + c2.log + [WrongBinaryTypes(t1, t2)])
        else Checked(Ok((t1, ctx2)), c1.log + c2.log)
  }

  /** Sequence indexing `e1[e2]`: both operands are checked first; `e1` must be a
      sequence (its borrowing mode is irrelevant), `e2` a non-Borrowed integer. */
  function CheckIndex(e1: Expr, e2: Expr, fns: FnContext, ctx: VarContext): Checked<(Typ, VarContext)>
    decreases ExprSize(ArrayIndex(e1, e2)), 2
  {
    var c1 := CheckExpr(e1, fns, ctx);
    if c1.res.Err? then Checked(Err, c1.log)
    else
      var (t1, ctx1) := c1.res.value;
      var c2 := CheckExpr(e2, fns, ctx1);
      if c2.res.Err? then Checked(Err, c1.log + c2.log)
      else
        var (t2, ctx2) := c2.res.value;
        var log := c1.log + c2.log;
        match t1.base
        case Seq(elem) =>
          if t2.mode == Borrowed then Checked(Err, log + [BorrowedIndex])
          else if IsInteger(t2.base) then Checked(Ok((Typ(Consumed, elem), ctx2)), log)
          else Checked(Err, log + [NonIntegerIndex(t2)])
        case _ => Checked(Err, log + [NotASequence(t1)])
  }

  /** Free function call: the callee must be a simple name bound in the table; an
      arity mismatch is reported and the zipped arguments are still checked. */
  function CheckFuncCall(f: Path, args: seq<Expr>, fns: FnContext, ctx: VarContext): Checked<(Typ, VarContext)>
    decreases ExprSize(FuncCall(f, args)), 2
  {
    if !IsSimple(f) then Checked(Err, [ForeignCall(f)])
    else if Static(f.location[0]) !in fns then Checked(Err, [UnknownFunction(f)])
    else
      var sig := fns[Static(f.location[0])];
      var arity := ArityLog(|sig.args|, |args|);
      var c := CheckArgs(sig.args, args, fns, ctx);
      match c.res
      case Err => Checked(Err, arity + c.log)
      case Ok(ctx') => Checked(Ok((Typ(Consumed, sig.ret), ctx')), arity + c.log)
  }

  /** Method call: the receiver is checked, the method is looked up on its base
      type, and the receiver is appended as the last argument and checked again
      from the context its first check left. */
  function CheckMethodCall(recv: Expr, name: Ident, args: seq<Expr>, fns: FnContext, ctx: VarContext)
    : Checked<(Typ, VarContext)>
    decreases ExprSize(MethodCall(recv, name, args)), 2
  {
    var c0 := CheckExpr(recv, fns, ctx);
    if c0.res.Err? then Checked(Err, c0.log)
    else
      var (t0, ctx1) := c0.res.value;
      if Method(t0.base, name) !in fns then Checked(Err, c0.log + [UnknownMethod(t0.base, name)])
      else
        var sig := fns[Method(t0.base, name)];
        var all := args + [recv];
        var arity := ArityLog(|sig.args|, |all|);
        ListSizeAppend(args, recv);
        var c := CheckArgs(sig.args, all, fns, ctx1);
        match c.res
        case Err => Checked(Err, c0.log + arity + c.log)
        case Ok(ctx') => Checked(Ok((Typ(Consumed, sig.ret), ctx')), c0.log + arity + c.log)
  }
}
