/** Properties of statements, blocks, items and programs. */
module StmtProps {
  import opened Wrappers
  import opened Syntax
  import opened TypeRules
  import opened Contexts
  import opened Threading
  import opened ExprChecker
  import opened StmtChecker

  /** `let x = e;` with `x` not bound in the context `e` leaves: `x` is bound to
      the type of `e` (and its optional declaration must be that very type). */
  lemma LetBindsFreshName(x: Ident, d: Option<Typ>, e: Expr, fns: FnContext, ctx: VarContext)
    requires var c := CheckExpr(e, fns, ctx); c.res.Ok? && x !in c.res.value.1
    ensures var c := CheckExpr(e, fns, ctx);
      var r := CheckStatement(LetBinding(IdentPat(x), d, e), fns, ctx);
      && (r.res.Ok? <==> d.None? || d.value == c.res.value.0)
      && (r.res.Ok? ==> r.res.value.1 == c.res.value.1[x := c.res.value.0])
  {
    var c := CheckExpr(e, fns, ctx);
    var (t, ctx1) := c.res.value;
    assert MapUnion(ctx1, map[x := t]) == ctx1[x := t];
  }

  /** `let x = e;` with `x` still bound after `e` (a copy or Borrowed variable,
      or one `e` did not use): the statement succeeds but the old binding of `x`
      is kept, so the new value is not reachable under that name. */
  lemma LetKeepsLiveBinding(x: Ident, e: Expr, fns: FnContext, ctx: VarContext)
    requires var c := CheckExpr(e, fns, ctx); c.res.Ok? && x in c.res.value.1
    ensures var c := CheckExpr(e, fns, ctx);
      var r := CheckStatement(LetBinding(IdentPat(x), None, e), fns, ctx);
      r.res.Ok? && r.res.value.1 == c.res.value.1
  {
    var c := CheckExpr(e, fns, ctx);
    var (t, ctx1) := c.res.value;
    assert MapUnion(ctx1, map[x := t]) == ctx1;
  }

  /** A declared type that differs from the expression's type fails the statement. */
  lemma DeclaredTypeMismatchFails(s: Statement, fns: FnContext, ctx: VarContext)
    requires var c := CheckExpr(s.expr, fns, ctx);
      c.res.Ok? && s.declared.Some? && s.declared.value != c.res.value.0
    ensures var c := CheckExpr(s.expr, fns, ctx);
      CheckStatement(s, fns, ctx) == Checked(Err, c.log + [DeclaredTypeMismatch(s.declared.value, c.res.value.0)])
  {
  }

  /** Statement threading without the unit check: the reference the block rule is
      compared with. The type of the last statement is recorded. */
  function Thread(step: (Statement, VarContext) -> Checked<(Typ, VarContext, VarSet)>,
      stmts: seq<Statement>, st: BlockState): Checked<BlockState>
    decreases |stmts|
  {
    if stmts == [] then Checked(Ok(st), [])
    else
      var c := step(stmts[0], st.ctx);
      match c.res
      case Err => Checked(Err, c.log)
      case Ok((t, ctx1, m)) =>
        var rest := Thread(step, stmts[1..], BlockState(ctx1, st.mutated + m, Some(t)));
        Checked(rest.res, c.log + rest.log)
  }

  /** On a non-empty list, the return type carried in is always overwritten. */
  lemma {:induction false} ThreadIgnoresRet(step: (Statement, VarContext) -> Checked<(Typ, VarContext, VarSet)>,
      stmts: seq<Statement>, ctx: VarContext, m: VarSet, r1: Option<Typ>, r2: Option<Typ>)
    requires stmts != []
    ensures Thread(step, stmts, BlockState(ctx, m, r1)) == Thread(step, stmts, BlockState(ctx, m, r2))
  {
  }

  /** Statement checks only ever succeed with type Consumed unit, so the block's
      unit check never fires: the block rule is plain threading. */
  lemma {:induction false} UnitCheckUnreachable(step: (Statement, VarContext) -> Checked<(Typ, VarContext, VarSet)>,
      stmts: seq<Statement>, st: BlockState)
    requires forall s, c :: step(s, c).res.Ok? ==> step(s, c).res.value.0 == Typ(Consumed, Unit)
    ensures StmtsRun(step, stmts, st) == Thread(step, stmts, st)
    decreases |stmts|
  {
    if stmts != [] {
      var c := step(stmts[0], st.ctx);
      if c.res.Ok? && |stmts| > 1 {
        var (t, ctx1, m) := c.res.value;
        UnitCheckUnreachable(step, stmts[1..], BlockState(ctx1, st.mutated + m, st.ret));
        ThreadIgnoresRet(step, stmts[1..], ctx1, st.mutated + m, st.ret, Some(t));
      }
    }
  }

  /** A successful block records no mutated variable and its return type is
      Consumed unit, or none for an empty block. */
  lemma {:induction false} StmtsRunOutcome(step: (Statement, VarContext) -> Checked<(Typ, VarContext, VarSet)>,
      stmts: seq<Statement>, st: BlockState)
    requires forall s, c :: step(s, c).res.Ok? ==>
      step(s, c).res.value.0 == Typ(Consumed, Unit) && step(s, c).res.value.2 == {}
    ensures var r := StmtsRun(step, stmts, st);
      r.res.Ok? ==>
        (r.res.value.mutated == st.mutated &&
         r.res.value.ret == (if stmts == [] then st.ret else Some(Typ(Consumed, Unit))))
    decreases |stmts|
  {
    if stmts != [] {
      var c := step(stmts[0], st.ctx);
      if c.res.Ok? && |stmts| > 1 {
        var (t, ctx1, m) := c.res.value;
        StmtsRunOutcome(step, stmts[1..], BlockState(ctx1, st.mutated + m, st.ret));
      }
    }
  }

  lemma BlockRule(b: Block, fns: FnContext, ctx: VarContext)
    ensures var step := (s, c) => CheckStatement(s, fns, c);
      CheckBlock(b, fns, ctx).res.Ok? <==> Thread(step, b.stmts, BlockState(ctx, {}, None)).res.Ok?
    ensures var r := CheckBlock(b, fns, ctx);
      r.res.Ok? ==> r.res.value == Block(b.stmts, Some({}), if b.stmts == [] then None else Some(Typ(Consumed, Unit)))
  {
    var step := (s, c) => CheckStatement(s, fns, c);
    UnitCheckUnreachable(step, b.stmts, BlockState(ctx, {}, None));
    StmtsRunOutcome(step, b.stmts, BlockState(ctx, {}, None));
  }

  /** The table the `k`-th item of a program is checked against. */
  function TableBefore(p: Program, k: nat): FnContext
    requires k <= |p|
  {
    CollectAll(ItemStep, p[..k], map[]).state
  }

  /** The walk over the first `k + 1` items extends the walk over the first `k`. */
  lemma ProgramStep(p: Program, k: nat)
    requires k < |p|
    ensures var pre := CollectAll(ItemStep, p[..k], map[]);
      var s := ItemStep(p[k], pre.state);
      CollectAll(ItemStep, p[..k + 1], map[]) == Run(pre.results + [s.res], s.state, pre.log + s.log)
  {
    assert p[..k + 1] == p[..k] + [p[k]];
    CollectAllAppend(ItemStep, p[..k], [p[k]], map[]);
    assert [p[k]][1..] == [];
  }

  /** An item that fails leaves the table as it was; one that succeeds publishes
      what the item rule returns. */
  lemma TableAfterItem(p: Program, k: nat)
    requires k < |p|
    ensures var c := CheckItem(p[k], TableBefore(p, k));
      TableBefore(p, k + 1) == if c.res.Ok? then c.res.value.1 else TableBefore(p, k)
  {
    ProgramStep(p, k);
  }

  /** Item `k`'s outcome is decided against the table the items before it built. */
  lemma ItemAt(p: Program, k: nat)
    requires k < |p|
    ensures CollectAll(ItemStep, p, map[]).results[k] == ItemStep(p[k], TableBefore(p, k)).res
  {
    CollectAllAppend(ItemStep, p[..k], p[k..], map[]);
    assert p[..k] + p[k..] == p;
    assert p[k..][0] == p[k];
  }

  /** A program checks iff every item checks against the table built by the items
      before it; the checked program then holds the checked items. */
  lemma ProgramRule(p: Program)
    ensures var r := CheckProgram(p);
      && (r.res.Ok? <==> forall k :: 0 <= k < |p| ==> CheckItem(p[k], TableBefore(p, k)).res.Ok?)
      && (r.res.Ok? ==> |r.res.value| == |p| && forall k :: 0 <= k < |p| ==>
           CheckItem(p[k], TableBefore(p, k)).res.Ok? &&
           r.res.value[k] == CheckItem(p[k], TableBefore(p, k)).res.value.0)
  {
    forall k | 0 <= k < |p|
      ensures CollectAll(ItemStep, p, map[]).results[k] ==
        (var c := CheckItem(p[k], TableBefore(p, k)); if c.res.Ok? then Ok(c.res.value.0) else Err)
    {
      ItemAt(p, k);
    }
  }

  /** Every item is checked and reports its diagnostics, also after an earlier
      item failed: the program's log is the items' logs in order. */
  lemma ProgramLog(p: Program, k: nat)
    requires k < |p|
    ensures CheckProgram(p).log ==
      CollectAll(ItemStep, p[..k], map[]).log
      + CheckItem(p[k], TableBefore(p, k)).log
      + CollectAll(ItemStep, p[k + 1..], TableBefore(p, k + 1)).log
  {
    ProgramStep(p, k);
    CollectAllAppend(ItemStep, p[..k + 1], p[k + 1..], map[]);
    assert p[..k + 1] + p[k + 1..] == p;
  }

  /** The program never puts a method into the table: every key is a free
      function's name. */
  lemma {:induction false} TableOnlyStatic(p: Program, k: nat)
    requires k <= |p|
    ensures forall key :: key in TableBefore(p, k) ==> key.Static?
    decreases k
  {
    if k > 0 {
      TableOnlyStatic(p, k - 1);
      TableAfterItem(p, k - 1);
    } else {
      assert p[..0] == [];
    }
  }

  /** Hence a method call checked from a program's table never resolves. */
  lemma MethodCallUnresolved(recv: Expr, name: Ident, args: seq<Expr>, fns: FnContext, ctx: VarContext)
    requires forall key :: key in fns ==> key.Static?
    ensures CheckExpr(MethodCall(recv, name, args), fns, ctx).res.Err?
  {
    var c0 := CheckExpr(recv, fns, ctx);
    if c0.res.Ok? {
      assert Method(c0.res.value.0.base, name) !in fns;
    }
  }
}
