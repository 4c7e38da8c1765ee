/** Signature table, variable context, diagnostics and the result combinator. */
module Contexts {
  import opened Wrappers
  import opened Syntax

  /** Key of the signature table: a free function, or a method of a receiver base type. */
  datatype FnKey = Static(name: Ident) | Method(receiver: BaseTyp, name: Ident)

  type FnContext = map<FnKey, FuncSig>

  /** Live bindings: a name is present until a non-copy Consumed use moves it out. */
  type VarContext = map<Ident, Typ>

  type VarSet = set<Ident>

  /** What the checker reports to the session, one constructor per message it emits. */
  datatype Diag =
    | UnknownVariable(path: Path)
    | WrongBinaryTypes(left: Typ, right: Typ)
    | BorrowedInTuple
    | BorrowedIndex
    | NonIntegerIndex(found: Typ)
    | NotASequence(found: Typ)
    | UnknownFunction(callee: Path)
    | ForeignCall(callee: Path)
    | UnknownMethod(receiver: BaseTyp, name: Ident)
    | ArityMismatch(expected: nat, got: nat)
    | ExpectedBorrow
    | SuperfluousBorrow
    | ArgTypeMismatch(param: BaseTyp, arg: BaseTyp)
    | PatternArity(patterns: nat, components: nat)
    | PatternNotTuple(typ: BaseTyp)
    | DeclaredTypeMismatch(declared: Typ, found: Typ)
    | NonUnitStatement

  /** A checking outcome together with the diagnostics reported while computing it. */
  datatype Checked<+T> = Checked(res: Result<T>, log: seq<Diag>)

  /** Union of two persistent maps. On a key bound in both, the binding of the
      receiver `a` is kept: this is the behaviour of the persistent map library's
      `union`, which the source relies on and which is not part of this model. */
  function MapUnion<K, V>(a: map<K, V>, b: map<K, V>): (r: map<K, V>)
    ensures r.Keys == a.Keys + b.Keys
    ensures forall k :: k in a ==> r[k] == a[k]
    ensures forall k :: k in b && k !in a ==> r[k] == b[k]
  {
    b + a
  }

  /** Collapses a vector of results: Ok of all values iff every entry is Ok. */
  function CheckVec<T>(v: seq<Result<T>>): (r: Result<seq<T>>)
    ensures r.Ok? <==> forall i :: 0 <= i < |v| ==> v[i].Ok?
    ensures r.Ok? ==> |r.value| == |v| && forall i :: 0 <= i < |v| ==> r.value[i] == v[i].value
  {
    if forall i :: 0 <= i < |v| ==> v[i].Ok? then
      Ok(seq(|v|, i requires 0 <= i < |v| => v[i].value))
    else
      Err
  }
}
