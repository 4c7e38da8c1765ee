/** Abstract syntax of the specification language as the type checker sees it.
    Source spans are dropped: they only serve diagnostics. */
module Syntax {
  import opened Wrappers

  type Ident = string

  datatype Borrowing = Consumed | Borrowed

  /** Base types. `Named` is a path with an optional single type argument. */
  datatype BaseTyp =
    | Unit
    | Bool
    | UInt128
    | Int128
    | UInt64
    | Int64
    | UInt32
    | Int32
    | UInt16
    | Int16
    | UInt8
    | Int8
    | Usize
    | Isize
    | Seq(elem: BaseTyp)
    | Named(path: Path)
    | Tuple(elems: seq<BaseTyp>)

  /** A type is a borrowing mode paired with a base type. */
  datatype Typ = Typ(mode: Borrowing, base: BaseTyp)

  /** A possibly qualified, possibly templated name. */
  datatype Path = Path(location: seq<Ident>, arg: Option<BaseTyp>)

  /** Literal values; each kind has exactly one base type. */
  datatype Literal =
    | BoolLit(b: bool)
    | Int128Lit(i: int)
    | UInt128Lit(i: int)
    | Int64Lit(i: int)
    | UInt64Lit(i: int)
    | Int32Lit(i: int)
    | UInt32Lit(i: int)
    | Int16Lit(i: int)
    | UInt16Lit(i: int)
    | Int8Lit(i: int)
    | UInt8Lit(i: int)
    | UsizeLit(i: int)
    | IsizeLit(i: int)

  /** Expressions. Operator kinds play no role in checking and are omitted;
      so is the method call's receiver borrow annotation, which the checker ignores. */
  datatype Expr =
    | TupleExpr(args: seq<Expr>)
    | NamedExpr(path: Path)
    | Binary(lhs: Expr, rhs: Expr)
    | Unary(inner: Expr)
    | Lit(lit: Literal)
    | ArrayIndex(arr: Expr, idx: Expr)
    | FuncCall(callee: Path, args: seq<Expr>)
    | MethodCall(receiver: Expr, name: Ident, args: seq<Expr>)

  datatype Pattern =
    | WildCard
    | IdentPat(x: Ident)
    | TuplePat(pats: seq<Pattern>)

  /** The only statement kind the checker handles: `let pat [: typ] = expr;`. */
  datatype Statement = LetBinding(pat: Pattern, declared: Option<Typ>, expr: Expr)

  /** A block; the checker fills in the last two fields. */
  datatype Block = Block(stmts: seq<Statement>, mutatedVars: Option<set<Ident>>, returnTyp: Option<Typ>)

  datatype Param = Param(name: Ident, typ: Typ)

  /** A function signature: parameters in order and a return base type. */
  datatype FuncSig = FuncSig(args: seq<Param>, ret: BaseTyp)

  datatype Item =
    | FnDecl(name: Ident, sig: FuncSig, body: Block)
    | Use(path: Path)

  type Program = seq<Item>

  /** A simple identifier: one path segment, no type argument. */
  predicate IsSimple(p: Path) {
    p.arg.None? && |p.location| == 1
  }
}
