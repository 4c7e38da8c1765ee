/** Properties of the expression checker. */
module ExprProps {
  import opened Wrappers
  import opened Syntax
  import opened TypeRules
  import opened Contexts
  import opened Threading
  import opened ExprChecker
  import opened ExprArms

  /** `ctx'` is what checking can leave of `ctx`: no variable is added or retyped,
      and only a Consumed non-copy variable can disappear. */
  predicate Shrinks(ctx: VarContext, ctx': VarContext) {
    && (forall y :: y in ctx' ==> y in ctx && ctx'[y] == ctx[y])
    && (forall y :: y in ctx && !Moves(ctx[y]) ==> y in ctx')
  }

  lemma ShrinksTrans(a: VarContext, b: VarContext, c: VarContext)
    requires Shrinks(a, b) && Shrinks(b, c)
    ensures Shrinks(a, c)
  {
  }

  /** Checking an expression only ever moves variables out of the context. */
  lemma {:induction false} ExprShrinks(e: Expr, fns: FnContext, ctx: VarContext)
    ensures var c := CheckExpr(e, fns, ctx); c.res.Ok? ==> Shrinks(ctx, c.res.value.1)
    decreases ExprSize(e), 3
  {
    match e
    case TupleExpr(args) => ElemsShrink(args, fns, ctx);
    case NamedExpr(p) =>
    case Binary(e1, e2) => BinaryShrinks(e1, e2, fns, ctx);
    case Unary(e1) => ExprShrinks(e1, fns, ctx);
    case Lit(_) =>
    case ArrayIndex(e1, e2) => IndexShrinks(e1, e2, fns, ctx);
    case FuncCall(f, args) => FuncCallShrinks(f, args, fns, ctx);
    case MethodCall(recv, name, args) => MethodCallShrinks(recv, name, args, fns, ctx);
  }

  lemma {:induction false} BinaryShrinks(e1: Expr, e2: Expr, fns: FnContext, ctx: VarContext)
    ensures var c := CheckBinary(e1, e2, fns, ctx); c.res.Ok? ==> Shrinks(ctx, c.res.value.1)
    decreases ExprSize(Binary(e1, e2)), 2
  {
    var c1 := CheckExpr(e1, fns, ctx);
    ExprShrinks(e1, fns, ctx);
    if c1.res.Ok? {
      ExprShrinks(e2, fns, c1.res.value.1);
      var c2 := CheckExpr(e2, fns, c1.res.value.1);
      if c2.res.Ok? {
        ShrinksTrans(ctx, c1.res.value.1, c2.res.value.1);
      }
    }
  }

  lemma {:induction false} IndexShrinks(e1: Expr, e2: Expr, fns: FnContext, ctx: VarContext)
    ensures var c := CheckIndex(e1, e2, fns, ctx); c.res.Ok? ==> Shrinks(ctx, c.res.value.1)
    decreases ExprSize(ArrayIndex(e1, e2)), 2
  {
    var c1 := CheckExpr(e1, fns, ctx);
    ExprShrinks(e1, fns, ctx);
    if c1.res.Ok? {
      ExprShrinks(e2, fns, c1.res.value.1);
      var c2 := CheckExpr(e2, fns, c1.res.value.1);
      if c2.res.Ok? {
        ShrinksTrans(ctx, c1.res.value.1, c2.res.value.1);
      }
    }
  }

  lemma {:induction false} FuncCallShrinks(f: Path, args: seq<Expr>, fns: FnContext, ctx: VarContext)
    ensures var c := CheckFuncCall(f, args, fns, ctx); c.res.Ok? ==> Shrinks(ctx, c.res.value.1)
    decreases ExprSize(FuncCall(f, args)), 2
  {
    if IsSimple(f) && Static(f.location[0]) in fns {
      ArgsShrink(fns[Static(f.location[0])].args, args, fns, ctx);
    }
  }

  lemma {:induction false} MethodCallShrinks(recv: Expr, name: Ident, args: seq<Expr>, fns: FnContext, ctx: VarContext)
    ensures var c := CheckMethodCall(recv, name, args, fns, ctx); c.res.Ok? ==> Shrinks(ctx, c.res.value.1)
    decreases ExprSize(MethodCall(recv, name, args)), 2
  {
    var c0 := CheckExpr(recv, fns, ctx);
    ExprShrinks(recv, fns, ctx);
    if c0.res.Ok? && Method(c0.res.value.0.base, name) in fns {
      var ctx1 := c0.res.value.1;
      ListSizeAppend(args, recv);
      ArgsShrink(fns[Method(c0.res.value.0.base, name)].args, args + [recv], fns, ctx1);
      var c := CheckArgs(fns[Method(c0.res.value.0.base, name)].args, args + [recv], fns, ctx1);
      if c.res.Ok? {
        ShrinksTrans(ctx, ctx1, c.res.value);
      }
    }
  }

  lemma {:induction false} ElemShrinks(arg: Expr, fns: FnContext, ctx: VarContext)
    ensures Shrinks(ctx, CheckTupleElem(arg, fns, ctx).state)
    decreases ExprSize(arg), 4
  {
    ExprShrinks(arg, fns, ctx);
  }

  /** The context a tuple leaves, even a failing one, is a shrinking of the
      context it started from. */
  lemma {:induction false} ElemsShrink(args: seq<Expr>, fns: FnContext, ctx: VarContext)
    ensures Shrinks(ctx, TupleElems(args, fns, ctx).state)
    decreases ListSize(args), 5
  {
    if args != [] {
      var c := CheckTupleElem(args[0], fns, ctx);
      ElemShrinks(args[0], fns, ctx);
      ElemsShrink(args[1..], fns, c.state);
      ShrinksTrans(ctx, c.state, TupleElems(args[1..], fns, c.state).state);
    }
  }

  lemma {:induction false} ArgShrinks(sigT: Typ, arg: Expr, fns: FnContext, ctx: VarContext)
    ensures var c := CheckArg(sigT, arg, fns, ctx); c.res.Ok? ==> Shrinks(ctx, c.res.value)
    decreases ExprSize(arg), 4
  {
    ExprShrinks(arg, fns, ctx);
  }

  lemma {:induction false} ArgsShrink(params: seq<Param>, args: seq<Expr>, fns: FnContext, ctx: VarContext)
    ensures var c := CheckArgs(params, args, fns, ctx); c.res.Ok? ==> Shrinks(ctx, c.res.value)
    decreases ListSize(args), 5
  {
    if params != [] && args != [] {
      var c := CheckArg(params[0].typ, args[0], fns, ctx);
      ArgShrinks(params[0].typ, args[0], fns, ctx);
      if c.res.Ok? {
        ArgsShrink(params[1..], args[1..], fns, c.res.value);
        var rest := CheckArgs(params[1..], args[1..], fns, c.res.value);
        if rest.res.Ok? {
          ShrinksTrans(ctx, c.res.value, rest.res.value);
        }
      }
    }
  }

  /** A variable that checking cannot move (Borrowed, or of a copy type) is still
      bound, to the same type, after any successful check. */
  lemma UnmovedSurvives(e: Expr, fns: FnContext, ctx: VarContext, x: Ident)
    requires x in ctx && !Moves(ctx[x])
    ensures var c := CheckExpr(e, fns, ctx);
      c.res.Ok? ==> x in c.res.value.1 && c.res.value.1[x] == ctx[x]
  {
    ExprShrinks(e, fns, ctx);
  }

  /** Affinity: `x op x` checks iff `x` can be used without being moved; a
      Consumed non-copy `x` is gone by the time the right operand looks it up. */
  lemma UseTwice(p: Path, fns: FnContext, ctx: VarContext)
    requires IsSimple(p) && p.location[0] in ctx
    ensures var c := CheckExpr(Binary(NamedExpr(p), NamedExpr(p)), fns, ctx);
      && (c.res.Ok? <==> !Moves(ctx[p.location[0]]))
      && (c.res.Ok? ==> c.res.value == (ctx[p.location[0]], ctx))
      && (c.res.Err? ==> c.log == [UnknownVariable(p)])
  {
    var x := p.location[0];
    var v := NamedExpr(p);
    assert CheckExpr(Binary(v, v), fns, ctx) == CheckBinary(v, v, fns, ctx);
    assert CheckExpr(v, fns, ctx) == CheckIdent(p, ctx);
    var ctx1 := CheckIdent(p, ctx).res.value.1;
    assert CheckExpr(v, fns, ctx1) == CheckIdent(p, ctx1);
    if !Moves(ctx[x]) {
      assert ctx1 == ctx;
      assert EqualTypes(ctx[x], ctx[x]);
    } else {
      assert x !in ctx1;
    }
  }

  /** Binary operators: both operands must check, the right one from the context
      the left one left, and their types must be identical (no widening between
      integer widths or signedness); the left type is the result. */
  lemma BinaryRule(e1: Expr, e2: Expr, fns: FnContext, ctx: VarContext)
    ensures var c := CheckExpr(Binary(e1, e2), fns, ctx);
      var c1 := CheckExpr(e1, fns, ctx);
      && (c.res.Ok? <==>
           c1.res.Ok? && var c2 := CheckExpr(e2, fns, c1.res.value.1);
           c2.res.Ok? && c2.res.value.0 == c1.res.value.0)
      && (c.res.Ok? ==>
           c.res.value == (c1.res.value.0, CheckExpr(e2, fns, c1.res.value.1).res.value.1))
  {
  }

  /** Indexing: the indexed expression must have a sequence base type, whatever
      its borrowing mode, and the index must be a Consumed integer; the result is
      the Consumed element type. */
  lemma IndexRule(e1: Expr, e2: Expr, fns: FnContext, ctx: VarContext)
    ensures var c := CheckExpr(ArrayIndex(e1, e2), fns, ctx);
      var c1 := CheckExpr(e1, fns, ctx);
      && (c.res.Ok? <==>
           c1.res.Ok? && c1.res.value.0.base.Seq? &&
           var c2 := CheckExpr(e2, fns, c1.res.value.1);
           c2.res.Ok? && c2.res.value.0.mode == Consumed && IsInteger(c2.res.value.0.base))
      && (c.res.Ok? ==>
           c.res.value == (Typ(Consumed, c1.res.value.0.base.elem), CheckExpr(e2, fns, c1.res.value.1).res.value.1))
  {
    assert CheckExpr(ArrayIndex(e1, e2), fns, ctx) == CheckIndex(e1, e2, fns, ctx);
  }

  /** The context the `k`-th tuple element is checked in. */
  function Before(args: seq<Expr>, k: nat, fns: FnContext, ctx: VarContext): VarContext
    requires k <= |args|
  {
    TupleElems(args[..k], fns, ctx).state
  }

  /** The `k`-th element of a tuple checks to a Consumed type. */
  predicate ElemOk(args: seq<Expr>, k: nat, fns: FnContext, ctx: VarContext)
    requires k < |args|
  {
    var c := CheckExpr(args[k], fns, Before(args, k, fns, ctx));
    c.res.Ok? && c.res.value.0.mode == Consumed
  }

  /** The outcome of the `k`-th element does not depend on what follows it. */
  lemma TupleElemAt(args: seq<Expr>, k: nat, fns: FnContext, ctx: VarContext)
    requires k < |args|
    ensures TupleElems(args, fns, ctx).results[k] == CheckTupleElem(args[k], fns, Before(args, k, fns, ctx)).res
  {
    var step := (a, c) => CheckTupleElem(a, fns, c);
    TupleElemsIsCollect(step, args, fns, ctx);
    TupleElemsIsCollect(step, args[..k], fns, ctx);
    TupleElemsIsCollect(step, args[k..], fns, Before(args, k, fns, ctx));
    CollectAllAppend(step, args[..k], args[k..], ctx);
    assert args[..k] + args[k..] == args;
    assert args[k..][0] == args[k];
  }

  /** A tuple checks iff every element checks to a Consumed type from the context
      the elements before it left; its type is then the Consumed tuple of the
      element base types. So one Borrowed element makes the whole tuple fail. */
  lemma TupleRule(args: seq<Expr>, fns: FnContext, ctx: VarContext)
    ensures var c := CheckExpr(TupleExpr(args), fns, ctx);
      && (c.res.Ok? <==> forall k :: 0 <= k < |args| ==> ElemOk(args, k, fns, ctx))
      && (c.res.Ok? ==>
           var t := c.res.value.0;
           && t.mode == Consumed && t.base.Tuple? && |t.base.elems| == |args|
           && forall k :: 0 <= k < |args| ==>
                ElemOk(args, k, fns, ctx) && t.base.elems[k] == CheckExpr(args[k], fns, Before(args, k, fns, ctx)).res.value.0.base)
  {
    var run := TupleElems(args, fns, ctx);
    forall k | 0 <= k < |args|
      ensures run.results[k].Ok? <==> ElemOk(args, k, fns, ctx)
      ensures run.results[k].Ok? ==>
        run.results[k].value == CheckExpr(args[k], fns, Before(args, k, fns, ctx)).res.value.0.base
    {
      TupleElemAt(args, k, fns, ctx);
    }
  }

  /** Checking the arguments pairwise: once a prefix of the pairs has passed,
      the rest is checked from the context that prefix left; a failing prefix
      fails the call. */
  lemma {:induction false} ArgsPrefix(params: seq<Param>, args: seq<Expr>, k: nat, fns: FnContext, ctx: VarContext)
    requires k <= |params| && k <= |args|
    ensures var p := CheckArgs(params[..k], args[..k], fns, ctx);
      && (p.res.Err? ==> CheckArgs(params, args, fns, ctx).res.Err?)
      && (p.res.Ok? ==>
           CheckArgs(params, args, fns, ctx).res == CheckArgs(params[k..], args[k..], fns, p.res.value).res)
    decreases k
  {
    if k == 0 {
      assert params[..0] == [] && params[0..] == params;
      assert args[0..] == args;
    } else {
      var c := CheckArg(params[0].typ, args[0], fns, ctx);
      assert params[..k][0] == params[0] && params[..k][1..] == params[1..][..k - 1];
      assert args[..k][0] == args[0] && args[..k][1..] == args[1..][..k - 1];
      if c.res.Ok? {
        ArgsPrefix(params[1..], args[1..], k - 1, fns, c.res.value);
        assert params[1..][k - 1..] == params[k..];
        assert args[1..][k - 1..] == args[k..];
      }
    }
  }

  /** Arguments beyond the parameter list are never checked. */
  lemma {:induction false} ExtraArgsIgnored(params: seq<Param>, args: seq<Expr>, fns: FnContext, ctx: VarContext)
    requires |params| <= |args|
    ensures CheckArgs(params, args, fns, ctx) == CheckArgs(params, args[..|params|], fns, ctx)
    decreases |params|
  {
    if params != [] {
      assert args[..|params|][0] == args[0];
      assert args[..|params|][1..] == args[1..][..|params| - 1];
      var c := CheckArg(params[0].typ, args[0], fns, ctx);
      if c.res.Ok? {
        ExtraArgsIgnored(params[1..], args[1..], fns, c.res.value);
      }
    }
  }

  /** Parameters beyond the argument list are never asked for. */
  lemma {:induction false} MissingArgsAccepted(params: seq<Param>, args: seq<Expr>, fns: FnContext, ctx: VarContext)
    requires |args| <= |params|
    ensures CheckArgs(params, args, fns, ctx) == CheckArgs(params[..|args|], args, fns, ctx)
    decreases |args|
  {
    if args != [] {
      assert params[..|args|][0] == params[0];
      assert params[..|args|][1..] == params[1..][..|args| - 1];
      var c := CheckArg(params[0].typ, args[0], fns, ctx);
      if c.res.Ok? {
        MissingArgsAccepted(params[1..], args[1..], fns, c.res.value);
      }
    }
  }

  /** The first pair whose argument has the wrong borrowing mode or base type
      fails the whole call. */
  lemma ArgMismatchFails(params: seq<Param>, args: seq<Expr>, k: nat, fns: FnContext, ctx: VarContext)
    requires k < |params| && k < |args|
    requires CheckArgs(params[..k], args[..k], fns, ctx).res.Ok?
    requires var c := CheckExpr(args[k], fns, CheckArgs(params[..k], args[..k], fns, ctx).res.value);
      c.res.Ok? && c.res.value.0 != params[k].typ
    ensures CheckArgs(params, args, fns, ctx).res.Err?
  {
    ArgsPrefix(params, args, k, fns, ctx);
    assert params[k..][0] == params[k] && args[k..][0] == args[k];
  }

  /** A free call succeeds only for a simple callee bound in the table, and then
      always yields the Consumed return type of its signature. For such a callee
      the outcome and the context are those of the argument walk, and an arity
      mismatch is only reported, ahead of the arguments' diagnostics. */
  lemma FuncCallRule(f: Path, args: seq<Expr>, fns: FnContext, ctx: VarContext)
    ensures var c := CheckExpr(FuncCall(f, args), fns, ctx);
      && (!IsSimple(f) ==> c == Checked(Err, [ForeignCall(f)]))
      && (IsSimple(f) && Static(f.location[0]) !in fns ==> c == Checked(Err, [UnknownFunction(f)]))
      && (c.res.Ok? ==>
           IsSimple(f) && Static(f.location[0]) in fns &&
           c.res.value.0 == Typ(Consumed, fns[Static(f.location[0])].ret))
      && (IsSimple(f) && Static(f.location[0]) in fns ==>
           var sig := fns[Static(f.location[0])];
           var a := CheckArgs(sig.args, args, fns, ctx);
           && (c.res.Ok? <==> a.res.Ok?)
           && (c.res.Ok? ==> c.res.value.1 == a.res.value)
           && c.log == ArityLog(|sig.args|, |args|) + a.log)
  {
  }

  /** A method call checks its receiver, looks the method up on the receiver's
      base type, and then its outcome and context are those of the argument walk
      over the arguments followed by the receiver, from the context the first
      check of the receiver left; an arity mismatch is only reported. */
  lemma MethodCallRule(recv: Expr, name: Ident, args: seq<Expr>, fns: FnContext, ctx: VarContext)
    ensures var c, c0 := CheckExpr(MethodCall(recv, name, args), fns, ctx), CheckExpr(recv, fns, ctx);
      && (c0.res.Err? ==> c == Checked(Err, c0.log))
      && (c0.res.Ok? && Method(c0.res.value.0.base, name) !in fns ==>
           c == Checked(Err, c0.log + [UnknownMethod(c0.res.value.0.base, name)]))
      && (c0.res.Ok? && Method(c0.res.value.0.base, name) in fns ==>
           var sig := fns[Method(c0.res.value.0.base, name)];
           var a := CheckArgs(sig.args, args + [recv], fns, c0.res.value.1);
           && (c.res.Ok? <==> a.res.Ok?)
           && (c.res.Ok? ==> c.res.value == (Typ(Consumed, sig.ret), a.res.value))
           && c.log == c0.log + ArityLog(|sig.args|, |args| + 1) + a.log)
  {
    assert CheckExpr(MethodCall(recv, name, args), fns, ctx) == CheckMethodCall(recv, name, args, fns, ctx);
  }

  /** The receiver is checked a second time as the last argument, from the
      context its first check left. A Consumed non-copy variable as receiver has
      been moved out by then, so the call fails whenever the signature has a
      parameter for the receiver. */
  lemma MovedReceiverFails(p: Path, name: Ident, args: seq<Expr>, fns: FnContext, ctx: VarContext)
    requires IsSimple(p) && p.location[0] in ctx && Moves(ctx[p.location[0]])
    requires Method(ctx[p.location[0]].base, name) in fns
    requires |args| < |fns[Method(ctx[p.location[0]].base, name)].args|
    ensures CheckExpr(MethodCall(NamedExpr(p), name, args), fns, ctx).res.Err?
  {
    var x := p.location[0];
    var sig := fns[Method(ctx[x].base, name)];
    var ctx1 := ctx - {x};
    var all := args + [NamedExpr(p)];
    assert CheckExpr(MethodCall(NamedExpr(p), name, args), fns, ctx)
      == CheckMethodCall(NamedExpr(p), name, args, fns, ctx);
    assert CheckExpr(NamedExpr(p), fns, ctx) == CheckIdent(p, ctx);
    assert CheckIdent(p, ctx).res.value == (ctx[x], ctx1);
    var k := |args|;
    assert all[..k] == args;
    ArgsPrefix(sig.args, all, k, fns, ctx1);
    var pre := CheckArgs(sig.args[..k], all[..k], fns, ctx1);
    if pre.res.Ok? {
      var ctxK := pre.res.value;
      ArgsShrink(sig.args[..k], all[..k], fns, ctx1);
      assert x !in ctxK;
      assert all[k..] == [NamedExpr(p)];
      assert sig.args[k..] != [];
      assert CheckExpr(NamedExpr(p), fns, ctxK) == CheckIdent(p, ctxK);
      assert CheckArg(sig.args[k..][0].typ, NamedExpr(p), fns, ctxK).res.Err?;
    }
  }

  /** A receiver that is not moved (Borrowed, or of a copy type) passes its second
      check unchanged; with a signature that has only the receiver parameter, of
      the receiver's own type, the call succeeds and leaves the context as it was. */
  lemma CopyReceiverSucceeds(p: Path, name: Ident, self: Ident, ret: BaseTyp, fns: FnContext, ctx: VarContext)
    requires IsSimple(p) && p.location[0] in ctx && !Moves(ctx[p.location[0]])
    requires fns[Method(ctx[p.location[0]].base, name) := FuncSig([Param(self, ctx[p.location[0]])], ret)] == fns
    ensures CheckExpr(MethodCall(NamedExpr(p), name, []), fns, ctx) == Checked(Ok((Typ(Consumed, ret), ctx)), [])
  {
    var x := p.location[0];
    var v := NamedExpr(p);
    assert Method(ctx[x].base, name) in fns;
    assert CheckExpr(MethodCall(v, name, []), fns, ctx) == CheckMethodCall(v, name, [], fns, ctx);
    assert CheckExpr(v, fns, ctx) == CheckIdent(p, ctx);
    assert CheckIdent(p, ctx) == Checked(Ok((ctx[x], ctx)), []);
    assert [] + [v] == [v];
    var params := [Param(self, ctx[x])];
    assert CheckArgs(params, [v], fns, ctx) == Checked(Ok(ctx), []) by {
      assert CheckArg(ctx[x], v, fns, ctx) == Checked(Ok(ctx), []);
      assert CheckArgs(params[1..], [v][1..], fns, ctx) == Checked(Ok(ctx), []);
    }
  }
}
