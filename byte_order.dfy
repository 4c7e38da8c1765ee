/** Fixed-width unsigned integers as big- and little-endian byte strings. */
module ByteOrder {

  function Pow256(n: nat): (r: nat)
    ensures r > 0
  {
    if n == 0 then 1 else 256 * Pow256(n - 1)
  }

  predicate IsBytes(bs: seq<nat>) {
    forall i :: 0 <= i < |bs| ==> bs[i] < 256
  }

  /** The value of a big-endian byte string: the first byte is the most significant. */
  function ValueBE(bs: seq<nat>): nat
    decreases |bs|
  {
    if bs == [] then 0 else ValueBE(bs[..|bs| - 1]) * 256 + bs[|bs| - 1]
  }

  /** The value of a little-endian byte string: the first byte is the least significant. */
  function ValueLE(bs: seq<nat>): nat
    decreases |bs|
  {
    if bs == [] then 0 else bs[0] + 256 * ValueLE(bs[1..])
  }

  /** The `n` low-order bytes of `x`, most significant first. */
  function BytesBE(n: nat, x: nat): (r: seq<nat>)
    ensures |r| == n && IsBytes(r)
  {
    if n == 0 then [] else BytesBE(n - 1, x / 256) + [x % 256]
  }

  /** The `n` low-order bytes of `x`, least significant first. */
  function BytesLE(n: nat, x: nat): (r: seq<nat>)
    ensures |r| == n && IsBytes(r)
  {
    if n == 0 then [] else [x % 256] + BytesLE(n - 1, x / 256)
  }

  lemma DivMod256(x: nat, q: nat, r: nat)
    requires r < 256 && x == 256 * q + r
    ensures x / 256 == q && x % 256 == r
  {
  }

  /** Reading back the bytes of a value gives the value (below the width's bound). */
  lemma {:induction false} ValueOfBytesBE(n: nat, x: nat)
    requires x < Pow256(n)
    ensures ValueBE(BytesBE(n, x)) == x
  {
    if n > 0 {
      var q, r := x / 256, x % 256;
      assert q < Pow256(n - 1);
      ValueOfBytesBE(n - 1, q);
      var bs := BytesBE(n, x);
      assert bs[..|bs| - 1] == BytesBE(n - 1, q);
    }
  }

  /** Writing out the value of a byte string gives the byte string back. */
  lemma {:induction false} BytesOfValueBE(bs: seq<nat>)
    requires IsBytes(bs)
    ensures BytesBE(|bs|, ValueBE(bs)) == bs
    decreases |bs|
  {
    if bs != [] {
      var init, last := bs[..|bs| - 1], bs[|bs| - 1];
      BytesOfValueBE(init);
      DivMod256(ValueBE(bs), ValueBE(init), last);
      assert bs == init + [last];
    }
  }

  lemma {:induction false} ValueOfBytesLE(n: nat, x: nat)
    requires x < Pow256(n)
    ensures ValueLE(BytesLE(n, x)) == x
  {
    if n > 0 {
      var q := x / 256;
      assert q < Pow256(n - 1);
      ValueOfBytesLE(n - 1, q);
      assert BytesLE(n, x)[1..] == BytesLE(n - 1, q);
    }
  }

  lemma {:induction false} BytesOfValueLE(bs: seq<nat>)
    requires IsBytes(bs)
    ensures BytesLE(|bs|, ValueLE(bs)) == bs
    decreases |bs|
  {
    if bs != [] {
      var rest := bs[1..];
      BytesOfValueLE(rest);
      DivMod256(ValueLE(bs), ValueLE(rest), bs[0]);
      assert bs == [bs[0]] + rest;
    }
  }

  // Arithmetic on the positions of fixed-size groups

  lemma MulSucc(k: nat, n: nat)
    ensures (k + 1) * n == k * n + n
  {
  }
  lemma DivSub(x: nat, n: nat)
    requires 0 < n <= x
    ensures x / n == (x - n) / n + 1 && x % n == (x - n) % n
  {
    var q, r := (x - n) / n, (x - n) % n;
    assert x - n == q * n + r;
    assert x == (q + 1) * n + r;
    DivUnique(x, n, q + 1, r);
  }
  lemma DivUnique(x: nat, n: nat, q: nat, r: nat)
    requires 0 < n && r < n && x == q * n + r
    ensures x / n == q && x % n == r
  {
    var q', r' := x / n, x % n;
    if q' < q {
      MulMono(q' + 1, q, n);
      MulSucc(q', n);
      assert false;
    } else if q' > q {
      MulMono(q + 1, q', n);
      MulSucc(q, n);
      assert false;
    }
  }
  lemma MulMono(a: nat, b: nat, n: nat)
    requires a <= b
    ensures a * n <= b * n
  {
  }
}
