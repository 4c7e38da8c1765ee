/** The two ways the checker threads a context through a list: visiting every
    element and collecting one result per element, or walking two zipped lists
    and stopping at the first failure. Each comes as a specification function
    and as the loop that reassigns a mutable context, proved equal to it; the
    per-element check is a parameter. */
module Threading {
  import opened Wrappers
  import opened Syntax
  import opened Contexts

  /** One element's outcome: its result, the context after it and its diagnostics. */
  datatype Step<+B, +S> = Step(res: Result<B>, state: S, log: seq<Diag>)

  /** What a visit of every element accumulates. */
  datatype Run<+B, +S> = Run(results: seq<Result<B>>, state: S, log: seq<Diag>)

  /** Visits every element in order, the context left by one being the context of
      the next, whether or not an earlier element failed. */
  function CollectAll<A, B, S>(step: (A, S) -> Step<B, S>, xs: seq<A>, s: S): (r: Run<B, S>)
    ensures |r.results| == |xs|
    decreases |xs|
  {
    if xs == [] then Run([], s, [])
    else
      var c := step(xs[0], s);
      var rest := CollectAll(step, xs[1..], c.state);
      Run([c.res] + rest.results, rest.state, c.log + rest.log)
  }

  /** Visiting `xs + ys` is visiting `xs`, then visiting `ys` from the context
      `xs` left: what comes later never changes an earlier element's outcome. */
  lemma {:induction false} CollectAllAppend<A, B, S>(step: (A, S) -> Step<B, S>, xs: seq<A>, ys: seq<A>, s: S)
    ensures var a := CollectAll(step, xs, s);
      var b := CollectAll(step, ys, a.state);
      CollectAll(step, xs + ys, s) == Run(a.results + b.results, b.state, a.log + b.log)
    decreases |xs|
  {
    if xs == [] {
      assert xs + ys == ys;
    } else {
      var c := step(xs[0], s);
      assert (xs + ys)[0] == xs[0] && (xs + ys)[1..] == xs[1..] + ys;
      CollectAllAppend(step, xs[1..], ys, c.state);
      var a := CollectAll(step, xs[1..], c.state);
      var b := CollectAll(step, ys, a.state);
      assert [c.res] + (a.results + b.results) == [c.res] + a.results + b.results;
      assert c.log + (a.log + b.log) == c.log + a.log + b.log;
    }
  }

  /** The collecting loop: one pass, reassigning the context after every element. */
  method CollectLoop<A, B, S>(step: (A, S) -> Step<B, S>, xs: seq<A>, s: S) returns (r: Run<B, S>)
    ensures r == CollectAll(step, xs, s)
  {
    var state := s;
    var results: seq<Result<B>> := [];
    var log: seq<Diag> := [];
    for i := 0 to |xs|
      invariant Run(results, state, log) == CollectAll(step, xs[..i], s)
    {
      var c := step(xs[i], state);
      CollectAllAppend(step, xs[..i], [xs[i]], s);
      assert xs[..i + 1] == xs[..i] + [xs[i]];
      assert [xs[i]][1..] == [];
      state := c.state;
      results := results + [c.res];
      log := log + c.log;
    }
    assert xs[..|xs|] == xs;
    r := Run(results, state, log);
  }

  /** Walks two lists pairwise, as far as the shorter one reaches, and stops at
      the first pair whose check fails; the context after the last pair and all
      diagnostics so far are returned. */
  function ZipUntilErr<P, A, S>(step: (P, A, S) -> Checked<S>, ps: seq<P>, xs: seq<A>, s: S): Checked<S>
    decreases |xs|
  {
    if ps == [] || xs == [] then Checked(Ok(s), [])
    else
      var c := step(ps[0], xs[0], s);
      match c.res
      case Err => Checked(Err, c.log)
      case Ok(s1) =>
        var rest := ZipUntilErr(step, ps[1..], xs[1..], s1);
        Checked(rest.res, c.log + rest.log)
  }

  /** The zipped loop, returning at the first failing pair. */
  method ZipLoop<P, A, S>(step: (P, A, S) -> Checked<S>, ps: seq<P>, xs: seq<A>, s: S) returns (r: Checked<S>)
    ensures r == ZipUntilErr(step, ps, xs, s)
  {
    var state := s;
    var log: seq<Diag> := [];
    ghost var full := ZipUntilErr(step, ps, xs, s);
    var n := if |ps| < |xs| then |ps| else |xs|;
    for i := 0 to n
      invariant var rest := ZipUntilErr(step, ps[i..], xs[i..], state);
        Checked(rest.res, log + rest.log) == full
    {
      assert xs[i..][0] == xs[i] && xs[i..][1..] == xs[i + 1..];
      assert ps[i..][0] == ps[i] && ps[i..][1..] == ps[i + 1..];
      var c := step(ps[i], xs[i], state);
      log := log + c.log;
      if c.res.Err? {
        return Checked(Err, log);
      }
      state := c.res.value;
    }
    assert ps[n..] == [] || xs[n..] == [];
    r := Checked(Ok(state), log);
  }
}
