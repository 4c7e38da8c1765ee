/** Worked examples of the checker on small inputs. */
module CheckerExamples {
  import opened Wrappers
  import opened Syntax
  import opened Contexts
  import opened Threading
  import opened ExprChecker
  import opened StmtChecker

  function Var(x: Ident): Path { Path([x], None) }

  /** `fn id(x: bool) -> bool`. */
  function IdTable(): FnContext {
    map[Static("id") := FuncSig([Param("x", Typ(Consumed, Bool))], Bool)]
  }

  /** `id(true)` has type bool. */
  lemma IdOfBool()
    ensures CheckExpr(FuncCall(Var("id"), [Lit(BoolLit(true))]), IdTable(), map[])
      == Checked(Ok((Typ(Consumed, Bool), map[])), [])
  {
    var args := [Lit(BoolLit(true))];
    var params := IdTable()[Static("id")].args;
    assert args[1..] == [] && params[1..] == [];
    assert CheckArgs(params, args, IdTable(), map[]) == Checked(Ok(map[]), []);
  }

  /** `id(1u8)` is refused: the argument's base type is not the parameter's. */
  lemma IdOfByte()
    ensures CheckExpr(FuncCall(Var("id"), [Lit(UInt8Lit(1))]), IdTable(), map[])
      == Checked(Err, [ArgTypeMismatch(Bool, UInt8)])
  {
    var args := [Lit(UInt8Lit(1))];
    var params := IdTable()[Static("id")].args;
    assert CheckArgs(params, args, IdTable(), map[]) == Checked(Err, [ArgTypeMismatch(Bool, UInt8)]);
  }

  /** `id(true, nope)`: the arity mismatch is only reported, and the extra
      argument, an unbound name, is never looked at. */
  lemma IdWithExtraArgument()
    ensures CheckExpr(FuncCall(Var("id"), [Lit(BoolLit(true)), NamedExpr(Var("nope"))]), IdTable(), map[])
      == Checked(Ok((Typ(Consumed, Bool), map[])), [ArityMismatch(1, 2)])
  {
    var args := [Lit(BoolLit(true)), NamedExpr(Var("nope"))];
    var params := IdTable()[Static("id")].args;
    assert params[1..] == [];
    assert CheckArgs(params, args, IdTable(), map[]) == Checked(Ok(map[]), []);
  }

  /** `fn f(x: bool) -> bool { let y = f(x); }` alone: the body cannot see `f`. */
  lemma NoSelfRecursion()
    ensures var sig := FuncSig([Param("x", Typ(Consumed, Bool))], Bool);
      var body := Block([LetBinding(IdentPat("y"), None, FuncCall(Var("f"), [NamedExpr(Var("x"))]))], None, None);
      CheckProgram([FnDecl("f", sig, body)]) == Checked(Err, [UnknownFunction(Var("f"))])
  {
    var sig := FuncSig([Param("x", Typ(Consumed, Bool))], Bool);
    var s := LetBinding(IdentPat("y"), None, FuncCall(Var("f"), [NamedExpr(Var("x"))]));
    var body := Block([s], None, None);
    var ctx := ParamContext(sig.args);
    assert CheckStatement(s, map[], ctx) == Checked(Err, [UnknownFunction(Var("f"))]);
    assert CheckBlock(body, map[], ctx) == Checked(Err, [UnknownFunction(Var("f"))]);
    var p := [FnDecl("f", sig, body)];
    var diag := [UnknownFunction(Var("f"))];
    assert CheckItem(p[0], map[]) == Checked(Err, diag);
    assert ItemStep(p[0], map[]) == Step(Err, map[], diag);
    assert p[1..] == [];
    assert CollectAll(ItemStep, p, map[]) == Run([Err], map[], diag + []);
    assert diag + [] == diag;
    var none: seq<Result<Item>> := [Err];
    assert !none[0].Ok?;
    assert CheckVec(none) == Err;
    assert CheckProgram(p) == Checked(Err, diag);
  }
}
