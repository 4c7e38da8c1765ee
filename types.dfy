/** Structural type equality and the copy classifier. */
module TypeRules {
  import opened Wrappers
  import opened Syntax

  /** The twelve fixed-width integer base types. */
  predicate IsInteger(b: BaseTyp) {
    b.UInt128? || b.Int128? || b.UInt64? || b.Int64? || b.UInt32? || b.Int32? ||
    b.UInt16? || b.Int16? || b.UInt8? || b.Int8? || b.Usize? || b.Isize?
  }

  /** Unit, Bool and the integers: the base types with no components. */
  predicate IsScalar(b: BaseTyp) {
    b.Unit? || b.Bool? || IsInteger(b)
  }

  /** Whether a value of base type `t` may be read without being consumed.
      Sequences and named types never are; a tuple is iff all its components are. */
  predicate IsCopy(t: BaseTyp) {
    match t
    case Unit => true
    case Bool => true
    case UInt128 => true
    case Int128 => true
    case UInt64 => true
    case Int64 => true
    case UInt32 => true
    case Int32 => true
    case UInt16 => true
    case Int16 => true
    case UInt8 => true
    case Int8 => true
    case Usize => true
    case Isize => true
    case Seq(_) => false
    case Named(_) => false
    case Tuple(ts) => forall i :: 0 <= i < |ts| ==> IsCopy(ts[i])
  }

  /** The non-tuple types reached by descending through tuples only. */
  function Leaves(t: BaseTyp): seq<BaseTyp>
  {
    if t.Tuple? then LeavesOf(t.elems) else [t]
  }

  function LeavesOf(ts: seq<BaseTyp>): seq<BaseTyp>
  {
    if ts == [] then [] else Leaves(ts[0]) + LeavesOf(ts[1..])
  }

  predicate AllScalar(ls: seq<BaseTyp>) {
    forall i :: 0 <= i < |ls| ==> IsScalar(ls[i])
  }

  /** Reference characterisation: a type is copy iff every leaf reached through
      tuples is Unit, Bool or an integer. */
  lemma {:induction false} IsCopyIffScalarLeaves(t: BaseTyp)
    ensures IsCopy(t) <==> AllScalar(Leaves(t))
    decreases t
  {
    if t.Tuple? {
      forall i | 0 <= i < |t.elems|
        ensures IsCopy(t.elems[i]) <==> AllScalar(Leaves(t.elems[i]))
      {
        IsCopyIffScalarLeaves(t.elems[i]);
      }
      AllCopyIffScalarLeaves(t.elems);
    } else {
      assert Leaves(t) == [t];
      assert AllScalar([t]) ==> IsScalar([t][0]);
    }
  }

  lemma {:induction false} AllCopyIffScalarLeaves(ts: seq<BaseTyp>)
    requires forall i :: 0 <= i < |ts| ==> (IsCopy(ts[i]) <==> AllScalar(Leaves(ts[i])))
    ensures (forall i :: 0 <= i < |ts| ==> IsCopy(ts[i])) <==> AllScalar(LeavesOf(ts))
  {
    if ts != [] {
      AllCopyIffScalarLeaves(ts[1..]);
      var l0, rest := Leaves(ts[0]), LeavesOf(ts[1..]);
      assert LeavesOf(ts) == l0 + rest;
      ScalarConcat(l0, rest);
      assert forall i :: 1 <= i < |ts| ==> ts[i] == ts[1..][i - 1];
    }
  }

  lemma ScalarConcat(a: seq<BaseTyp>, b: seq<BaseTyp>)
    ensures AllScalar(a + b) <==> AllScalar(a) && AllScalar(b)
  {
    if AllScalar(a + b) {
      forall i | 0 <= i < |a| ensures IsScalar(a[i]) {
        assert (a + b)[i] == a[i];
      }
      forall i | 0 <= i < |b| ensures IsScalar(b[i]) {
        assert (a + b)[|a| + i] == b[i];
      }
    }
  }

  /** Structural equality of two types. Borrowing modes must agree; components of
      sequences, named types and tuples are compared with both sides Consumed.
      Integer widths and signedness never match one another. The result coincides
      with plain equality of the two (span-free) types. */
  predicate EqualTypes(t1: Typ, t2: Typ)
    ensures EqualTypes(t1, t2) <==> t1 == t2
    decreases t1.base
  {
    (match (t1.mode, t2.mode)
     case (Consumed, Consumed) => true
     case (Borrowed, Borrowed) => true
     case _ => false) &&
    match t1.base
    case Unit => t2.base.Unit?
    case Bool => t2.base.Bool?
    case UInt128 => t2.base.UInt128?
    case Int128 => t2.base.Int128?
    case UInt64 => t2.base.UInt64?
    case Int64 => t2.base.Int64?
    case UInt32 => t2.base.UInt32?
    case Int32 => t2.base.Int32?
    case UInt16 => t2.base.UInt16?
    case Int16 => t2.base.Int16?
    case UInt8 => t2.base.UInt8?
    case Int8 => t2.base.Int8?
    case Usize => t2.base.Usize?
    case Isize => t2.base.Isize?
    case Seq(c1) =>
      t2.base.Seq? && EqualTypes(Typ(Consumed, c1), Typ(Consumed, t2.base.elem))
    case Named(p1) =>
      t2.base.Named? &&
      var p2 := t2.base.path;
      |p1.location| == |p2.location| &&
      (forall i :: 0 <= i < |p1.location| ==> p1.location[i] == p2.location[i]) &&
      (match (p1.arg, p2.arg)
       case (None, None) => true
       case (Some(a1), Some(a2)) => EqualTypes(Typ(Consumed, a1), Typ(Consumed, a2))
       case _ => false)
    case Tuple(ts1) =>
      t2.base.Tuple? &&
      var ts2 := t2.base.elems;
      |ts1| == |ts2| &&
      forall i :: 0 <= i < |ts1| ==> EqualTypes(Typ(Consumed, ts1[i]), Typ(Consumed, ts2[i]))
  }
}
