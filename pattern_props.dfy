/** The let-pattern binder against an independent reference: flatten the pattern
    into the list of names it binds, then build the context, the first binding of
    a name winning. */
module PatternProps {
  import opened Wrappers
  import opened Syntax
  import opened Contexts
  import opened StmtChecker

  /** The (name, type) pairs a pattern binds, left to right, over the zipped
      components; none when a tuple pattern meets a type that is not a tuple. */
  function Binds(pat: Pattern, t: Typ): Option<seq<(Ident, Typ)>>
    decreases pat
  {
    match pat
    case WildCard => Some([])
    case IdentPat(x) => Some([(x, t)])
    case TuplePat(ps) => if t.base.Tuple? then BindsAll(ps, t.base.elems) else None
  }

  function BindsAll(ps: seq<Pattern>, ts: seq<BaseTyp>): Option<seq<(Ident, Typ)>>
    decreases ps
  {
    if ps == [] || ts == [] then Some([])
    else
      match (Binds(ps[0], Typ(Consumed, ts[0])), BindsAll(ps[1..], ts[1..]))
      case (Some(a), Some(b)) => Some(a + b)
      case _ => None
  }

  /** The context of a binding list, the first binding of each name winning. */
  function FirstWins(bs: seq<(Ident, Typ)>): VarContext
  {
    if bs == [] then map[] else FirstWins(bs[1..])[bs[0].0 := bs[0].1]
  }

  /** The first binding of a name is the one in the context. */
  lemma {:induction false} FirstWinsLookup(bs: seq<(Ident, Typ)>, i: nat)
    requires i < |bs| && forall j :: 0 <= j < i ==> bs[j].0 != bs[i].0
    ensures bs[i].0 in FirstWins(bs) && FirstWins(bs)[bs[i].0] == bs[i].1
  {
    if i > 0 {
      assert forall j :: 0 <= j < i - 1 ==> bs[1..][j] == bs[j + 1];
      FirstWinsLookup(bs[1..], i - 1);
      assert bs[0].0 != bs[i].0;
    }
  }

  lemma {:induction false} FirstWinsAppend(a: seq<(Ident, Typ)>, b: seq<(Ident, Typ)>)
    ensures FirstWins(a + b) == MapUnion(FirstWins(a), FirstWins(b))
  {
    if a == [] {
      assert a + b == b;
    } else {
      assert (a + b)[0] == a[0] && (a + b)[1..] == a[1..] + b;
      FirstWinsAppend(a[1..], b);
    }
  }

  lemma MapUnionAssoc(m: VarContext, x: VarContext, y: VarContext)
    ensures MapUnion(MapUnion(m, x), y) == MapUnion(m, MapUnion(x, y))
  {
  }

  /** The fold from an accumulated outcome: it fails iff the accumulator or one
      component fails, and otherwise adds the components' bindings behind the
      accumulated ones. */
  lemma {:induction false} BindFoldIsReference(ps: seq<Pattern>, ts: seq<BaseTyp>, acc: Result<VarContext>)
    ensures BindFold(ps, ts, acc).res ==
      match (acc, BindsAll(ps, ts))
      case (Ok(m), Some(bs)) => Ok(MapUnion(m, FirstWins(bs)))
      case _ => Err
    decreases ps
  {
    if ps == [] || ts == [] {
      if acc.Ok? {
        assert MapUnion(acc.value, map[]) == acc.value;
      }
    } else {
      var t0 := Typ(Consumed, ts[0]);
      PatternIsReference(ps[0], t0);
      var sub := CheckPattern(ps[0], t0);
      var acc' := if sub.res.Err? || acc.Err? then Err else Ok(MapUnion(acc.value, sub.res.value));
      BindFoldIsReference(ps[1..], ts[1..], acc');
      if acc'.Ok? && BindsAll(ps[1..], ts[1..]).Some? {
        var a := Binds(ps[0], t0).value;
        var b := BindsAll(ps[1..], ts[1..]).value;
        FirstWinsAppend(a, b);
        MapUnionAssoc(acc.value, FirstWins(a), FirstWins(b));
      }
    }
  }

  /** The binder agrees with the reference: it fails exactly when a tuple pattern
      meets a non-tuple type somewhere, and otherwise binds, for each name, the
      type at its first occurrence. */
  lemma {:induction false} PatternIsReference(pat: Pattern, t: Typ)
    ensures CheckPattern(pat, t).res ==
      match Binds(pat, t)
      case None => Err
      case Some(bs) => Ok(FirstWins(bs))
    decreases pat
  {
    match pat
    case WildCard =>
    case IdentPat(x) =>
      assert [(x, t)][1..] == [];
    case TuplePat(ps) =>
      if t.base.Tuple? {
        BindFoldIsReference(ps, t.base.elems, Ok(map[]));
        if BindsAll(ps, t.base.elems).Some? {
          var m := FirstWins(BindsAll(ps, t.base.elems).value);
          assert MapUnion(map[], m) == m;
        }
      }
  }

  /** `let (a, b)` against `(bool, u8)` binds both components. */
  lemma PairPattern()
    ensures CheckPattern(TuplePat([IdentPat("a"), IdentPat("b")]), Typ(Consumed, Tuple([Bool, UInt8])))
      == Checked(Ok(map["a" := Typ(Consumed, Bool), "b" := Typ(Consumed, UInt8)]), [])
  {
    var ps, ts := [IdentPat("a"), IdentPat("b")], [Bool, UInt8];
    assert ps[1..] == [IdentPat("b")] && ps[1..][1..] == [];
    assert ts[1..] == [UInt8];
    var bs := [("a", Typ(Consumed, Bool)), ("b", Typ(Consumed, UInt8))];
    assert BindsAll(ps[1..], ts[1..]) == Some([("b", Typ(Consumed, UInt8))]) by {
      assert BindsAll(ps[1..][1..], ts[1..][1..]) == Some([]);
      assert [("b", Typ(Consumed, UInt8))] + [] == [("b", Typ(Consumed, UInt8))];
    }
    assert [("a", Typ(Consumed, Bool))] + [("b", Typ(Consumed, UInt8))] == bs;
    assert BindsAll(ps, ts) == Some(bs);
    assert bs[1..] == [("b", Typ(Consumed, UInt8))] && bs[1..][1..] == [];
    assert FirstWins(bs) == map["a" := Typ(Consumed, Bool), "b" := Typ(Consumed, UInt8)];
    PatternIsReference(TuplePat(ps), Typ(Consumed, Tuple(ts)));
  }

  /** `let (a,)` against `(bool, u8)`: the arity mismatch is reported and the
      first component is still bound. */
  lemma ShortPattern()
    ensures CheckPattern(TuplePat([IdentPat("a")]), Typ(Consumed, Tuple([Bool, UInt8])))
      == Checked(Ok(map["a" := Typ(Consumed, Bool)]), [PatternArity(1, 2)])
  {
    var ps, ts := [IdentPat("a")], [Bool, UInt8];
    assert ps[1..] == [];
    var bs := [("a", Typ(Consumed, Bool))];
    assert BindsAll(ps[1..], ts[1..]) == Some([]);
    assert bs + [] == bs;
    assert BindsAll(ps, ts) == Some(bs);
    assert bs[1..] == [];
    assert FirstWins(bs) == map["a" := Typ(Consumed, Bool)];
    PatternIsReference(TuplePat(ps), Typ(Consumed, Tuple(ts)));
  }

  /** `let (a, a)` against `(bool, u8)`: the first component's binding wins. */
  lemma RepeatedName()
    ensures CheckPattern(TuplePat([IdentPat("a"), IdentPat("a")]), Typ(Consumed, Tuple([Bool, UInt8])))
      == Checked(Ok(map["a" := Typ(Consumed, Bool)]), [])
  {
    var ps, ts := [IdentPat("a"), IdentPat("a")], [Bool, UInt8];
    assert ps[1..] == [IdentPat("a")] && ps[1..][1..] == [];
    assert ts[1..] == [UInt8];
    var bs := [("a", Typ(Consumed, Bool)), ("a", Typ(Consumed, UInt8))];
    assert BindsAll(ps[1..], ts[1..]) == Some([("a", Typ(Consumed, UInt8))]) by {
      assert BindsAll(ps[1..][1..], ts[1..][1..]) == Some([]);
      assert [("a", Typ(Consumed, UInt8))] + [] == [("a", Typ(Consumed, UInt8))];
    }
    assert [("a", Typ(Consumed, Bool))] + [("a", Typ(Consumed, UInt8))] == bs;
    assert BindsAll(ps, ts) == Some(bs);
    assert bs[1..] == [("a", Typ(Consumed, UInt8))] && bs[1..][1..] == [];
    assert FirstWins(bs) == map["a" := Typ(Consumed, Bool)];
    PatternIsReference(TuplePat(ps), Typ(Consumed, Tuple(ts)));
  }

  /** A tuple pattern against a type that is not a tuple fails. */
  lemma TuplePatternNeedsTuple(ps: seq<Pattern>, t: Typ)
    requires !t.base.Tuple?
    ensures CheckPattern(TuplePat(ps), t) == Checked(Err, [PatternNotTuple(t.base)])
  {
  }

  /** Components of a Borrowed tuple are bound as Consumed. */
  lemma BorrowedTupleComponents()
    ensures CheckPattern(TuplePat([IdentPat("a")]), Typ(Borrowed, Tuple([Seq(UInt8)])))
      == Checked(Ok(map["a" := Typ(Consumed, Seq(UInt8))]), [])
  {
    var ps, ts := [IdentPat("a")], [Seq(UInt8)];
    assert ps[1..] == [] && ts[1..] == [];
    var bs := [("a", Typ(Consumed, Seq(UInt8)))];
    assert BindsAll(ps[1..], ts[1..]) == Some([]);
    assert bs + [] == bs;
    assert BindsAll(ps, ts) == Some(bs);
    assert bs[1..] == [];
    assert FirstWins(bs) == map["a" := Typ(Consumed, Seq(UInt8))];
    PatternIsReference(TuplePat(ps), Typ(Borrowed, Tuple(ts)));
  }
}
