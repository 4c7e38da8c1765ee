/** Let-patterns, statements, blocks, items and whole programs. */
module StmtChecker {
  import opened Wrappers
  import opened Syntax
  import opened TypeRules
  import opened Contexts
  import opened Threading
  import opened ExprChecker

  /** Binds a pattern against the type of the value it destructures. A wildcard
      binds nothing, an identifier binds the whole type (with its mode), a tuple
      pattern needs a tuple type and binds its sub-patterns, as Consumed, against
      the components; an arity mismatch is reported and the zipped pairs are
      still bound. */
  function CheckPattern(pat: Pattern, t: Typ): Checked<VarContext>
    decreases pat
  {
    match pat
    case WildCard => Checked(Ok(map[]), [])
    case IdentPat(x) => Checked(Ok(map[x := t]), [])
    case TuplePat(ps) =>
      if t.base.Tuple? then
        var ts := t.base.elems;
        var arity := if |ps| != |ts| then [PatternArity(|ps|, |ts|)] else [];
        var c := BindFold(ps, ts, Ok(map[]));
        Checked(c.res, arity + c.log)
      else Checked(Err, [PatternNotTuple(t.base)])
  }

  /** The fold over the zipped sub-patterns and component types. Every sub-pattern
      is bound, also after an earlier one failed; a name bound earlier keeps its
      binding (`MapUnion` is biased towards its first argument). */
  function BindFold(ps: seq<Pattern>, ts: seq<BaseTyp>, acc: Result<VarContext>): Checked<VarContext>
    decreases ps
  {
    if ps == [] || ts == [] then Checked(acc, [])
    else
      var sub := CheckPattern(ps[0], Typ(Consumed, ts[0]));
      var acc' := if sub.res.Err? || acc.Err? then Err else Ok(MapUnion(acc.value, sub.res.value));
      var rest := BindFold(ps[1..], ts[1..], acc');
      Checked(rest.res, sub.log + rest.log)
  }

  /** A let statement: the expression, then the declared type (if any) against the
      expression's type, then the pattern. The pattern's bindings are added to
      the context the expression left, a name still bound there keeping its old
      binding. A statement has type Consumed unit and mutates nothing. */
  function CheckStatement(s: Statement, fns: FnContext, ctx: VarContext): (r: Checked<(Typ, VarContext, VarSet)>)
    ensures r.res.Ok? ==> r.res.value.0 == Typ(Consumed, Unit) && r.res.value.2 == {}
    ensures var c := CheckExpr(s.expr, fns, ctx);
      r.res.Ok? <==>
        && c.res.Ok?
        && (s.declared.Some? ==> s.declared.value == c.res.value.0)
        && CheckPattern(s.pat, c.res.value.0).res.Ok?
    ensures r.res.Ok? ==> var c := CheckExpr(s.expr, fns, ctx);
      r.res.value.1 == MapUnion(c.res.value.1, CheckPattern(s.pat, c.res.value.0).res.value)
  {
    var c := CheckExpr(s.expr, fns, ctx);
    match c.res
    case Err => Checked(Err, c.log)
    case Ok((t, ctx1)) =>
      if s.declared.Some? && !EqualTypes(s.declared.value, t) then
        Checked(Err, c.log + [DeclaredTypeMismatch(s.declared.value, t)])
      else
        var pc := CheckPattern(s.pat, t);
        match pc.res
        case Err => Checked(Err, c.log + pc.log)
        case Ok(bound) => Checked(Ok((Typ(Consumed, Unit), MapUnion(ctx1, bound), {})), c.log + pc.log)
  }

  /** What the statement loop accumulates: the context, the mutated variables and
      the type of the last statement (none for an empty block). */
  datatype BlockState = BlockState(ctx: VarContext, mutated: VarSet, ret: Option<Typ>)

  /** The statement loop of a block, the statement check being a parameter: the
      first failing statement fails the block, and so does a statement other than
      the last whose type is not Consumed unit. */
  function StmtsRun(step: (Statement, VarContext) -> Checked<(Typ, VarContext, VarSet)>,
      stmts: seq<Statement>, st: BlockState): Checked<BlockState>
    decreases |stmts|
  {
    if stmts == [] then Checked(Ok(st), [])
    else
      var c := step(stmts[0], st.ctx);
      match c.res
      case Err => Checked(Err, c.log)
      case Ok((t, ctx1, m)) =>
        if |stmts| > 1 then
          if t != Typ(Consumed, Unit) then Checked(Err, c.log + [NonUnitStatement])
          else
            var rest := StmtsRun(step, stmts[1..], BlockState(ctx1, st.mutated + m, st.ret));
            Checked(rest.res, c.log + rest.log)
        else Checked(Ok(BlockState(ctx1, st.mutated + m, Some(t))), c.log)
  }

  /** The block rule: the statements are checked from the given context and the
      block records the mutated variables and its return type; the context the
      statements leave is dropped, the block being their scope. */
  function CheckBlock(b: Block, fns: FnContext, ctx: VarContext): Checked<Block>
  {
    var run := StmtsRun((s, c) => CheckStatement(s, fns, c), b.stmts, BlockState(ctx, {}, None));
    match run.res
    case Err => Checked(Err, run.log)
    case Ok(st) => Checked(Ok(Block(b.stmts, Some(st.mutated), st.ret)), run.log)
  }

  /** The block loop: reassigns the context, the mutated set and the return type
      statement by statement, returning at the first failure. */
  method StmtsLoop(step: (Statement, VarContext) -> Checked<(Typ, VarContext, VarSet)>,
      stmts: seq<Statement>, ctx: VarContext) returns (r: Checked<BlockState>)
    ensures r == StmtsRun(step, stmts, BlockState(ctx, {}, None))
  {
    var varContext := ctx;
    var mutatedVars: VarSet := {};
    var returnTyp: Option<Typ> := None;
    var log: seq<Diag> := [];
    ghost var full := StmtsRun(step, stmts, BlockState(ctx, {}, None));
    for i := 0 to |stmts|
      invariant var rest := StmtsRun(step, stmts[i..], BlockState(varContext, mutatedVars, returnTyp));
        Checked(rest.res, log + rest.log) == full
    {
      assert stmts[i..][0] == stmts[i] && stmts[i..][1..] == stmts[i + 1..];
      var c := step(stmts[i], varContext);
      log := log + c.log;
      if c.res.Err? {
        return Checked(Err, log);
      }
      var (stmtTyp, newVarContext, newMutated) := c.res.value;
      varContext := newVarContext;
      mutatedVars := mutatedVars + newMutated;
      if i + 1 < |stmts| {
        if stmtTyp != Typ(Consumed, Unit) {
          return Checked(Err, log + [NonUnitStatement]);
        }
      } else {
        returnTyp := Some(stmtTyp);
      }
    }
    assert stmts[|stmts|..] == [];
    r := Checked(Ok(BlockState(varContext, mutatedVars, returnTyp)), log);
  }

  method TypecheckBlock(b: Block, fns: FnContext, ctx: VarContext) returns (r: Checked<Block>)
    ensures r == CheckBlock(b, fns, ctx)
  {
    var run := StmtsLoop((s, c) => CheckStatement(s, fns, c), b.stmts, ctx);
    match run.res {
      case Err => r := Checked(Err, run.log);
      case Ok(st) => r := Checked(Ok(Block(b.stmts, Some(st.mutated), st.ret)), run.log);
    }
  }

  /** No later parameter has the same name as parameter `i`. */
  predicate LastOfName(ps: seq<Param>, i: nat)
    requires i < |ps|
  {
    forall j :: i < j < |ps| ==> ps[j].name != ps[i].name
  }

  /** The context a function body starts in: the parameters bound to their
      types one after the other. */
  function ParamContext(ps: seq<Param>): VarContext
    decreases |ps|
  {
    if ps == [] then map[]
    else ParamContext(ps[..|ps| - 1])[ps[|ps| - 1].name := ps[|ps| - 1].typ]
  }

  /** The parameter names, as a set. */
  function ParamNames(ps: seq<Param>): set<Ident>
  {
    set i | 0 <= i < |ps| :: ps[i].name
  }

  /** Every parameter is bound and nothing else is. */
  lemma {:induction false} ParamContextKeys(ps: seq<Param>)
    ensures ParamContext(ps).Keys == ParamNames(ps)
    decreases |ps|
  {
    if ps != [] {
      var n := |ps| - 1;
      ParamContextKeys(ps[..n]);
      assert ParamNames(ps) == ParamNames(ps[..n]) + {ps[n].name} by {
        forall y | y in ParamNames(ps) ensures y in ParamNames(ps[..n]) + {ps[n].name} {
          var i :| 0 <= i < |ps| && ps[i].name == y;
          if i < n {
            assert ps[..n][i] == ps[i];
          }
        }
        forall y | y in ParamNames(ps[..n]) ensures y in ParamNames(ps) {
          var i :| 0 <= i < n && ps[..n][i].name == y;
          assert ps[i] == ps[..n][i];
        }
      }
    }
  }

  /** Of two parameters with one name, the later one gives the binding. */
  lemma {:induction false} ParamContextLastWins(ps: seq<Param>, i: nat)
    requires i < |ps| && LastOfName(ps, i)
    ensures ps[i].name in ParamContext(ps) && ParamContext(ps)[ps[i].name] == ps[i].typ
    decreases |ps|
  {
    var n := |ps| - 1;
    if i < n {
      var init := ps[..n];
      assert init[i] == ps[i];
      assert LastOfName(init, i) by {
        forall j | i < j < |init| ensures init[j].name != init[i].name {
          assert init[j] == ps[j];
        }
      }
      ParamContextLastWins(init, i);
      assert ps[n].name != ps[i].name;
    }
  }

  /** One item against the table of the items before it. A function's body is
      checked in the context of its parameters and with the table as it was, so
      the function cannot call itself; on success its signature is added under
      its name, replacing an earlier one. A `use` item passes through. */
  function CheckItem(it: Item, fns: FnContext): (r: Checked<(Item, FnContext)>)
    ensures it.Use? ==> r == Checked(Ok((it, fns)), [])
    ensures it.FnDecl? ==>
      var cb := CheckBlock(it.body, fns, ParamContext(it.sig.args));
      (r.res.Ok? <==> cb.res.Ok?) && r.log == cb.log
    ensures it.FnDecl? && r.res.Ok? ==>
      && CheckBlock(it.body, fns, ParamContext(it.sig.args)).res.Ok?
      && r.res.value == (FnDecl(it.name, it.sig, CheckBlock(it.body, fns, ParamContext(it.sig.args)).res.value),
                         fns[Static(it.name) := it.sig])
  {
    match it
    case FnDecl(f, sig, body) =>
      var cb := CheckBlock(body, fns, ParamContext(sig.args));
      (match cb.res
       case Err => Checked(Err, cb.log)
       case Ok(b) => Checked(Ok((FnDecl(f, sig, b), fns[Static(f) := sig])), cb.log))
    case Use(_) => Checked(Ok((it, fns)), [])
  }

  /** An item as one step of the program walk: a failing item leaves the table
      unchanged. */
  function ItemStep(it: Item, fns: FnContext): Step<Item, FnContext>
  {
    var c := CheckItem(it, fns);
    match c.res
    case Err => Step(Err, fns, c.log)
    case Ok((it', fns')) => Step(Ok(it'), fns', c.log)
  }

  /** The program rule: every item is checked, in order, against the table the
      items before it built, starting from the empty table; the program checks
      iff every item does. */
  function CheckProgram(p: Program): Checked<Program>
  {
    var run := CollectAll(ItemStep, p, map[]);
    Checked(CheckVec(run.results), run.log)
  }

  /** The program loop: reassigns the table as each item is checked. */
  method TypecheckProgram(p: Program) returns (r: Checked<Program>)
    ensures r == CheckProgram(p)
  {
    var run := CollectLoop(ItemStep, p, map[]);
    r := Checked(CheckVec(run.results), run.log);
  }
}
