/** The fixed-length array type the array macro generates for a name, a length
    and an unsigned element type: `len` elements in a mutable buffer. */
module FixedArrays {
  import opened Wrappers
  import opened ByteOrder
  import opened ArraySpec
  import opened ArrayProps

  /** Every element width holds at least a byte. */
  lemma BoundHoldsBytes(w: Width)
    ensures Bound(w) >= 256
  {
    PowAtLeast(Size(w));
  }

  lemma {:induction false} PowAtLeast(n: nat)
    requires n >= 1
    ensures Pow256(n) >= 256
  {
    if n > 1 {
      PowAtLeast(n - 1);
    }
  }

  lemma UpdatedInRange(w: Width, a: seq<nat>, start: nat, v: seq<nat>)
    requires start + |v| <= |a| && InRange(w, a) && InRange(w, v)
    ensures InRange(w, Updated(a, start, v))
  {
    var r := Updated(a, start, v);
    forall i | 0 <= i < |r|
      ensures r[i] < Bound(w)
    {
      if start <= i < start + |v| {
        assert r[start + (i - start)] == v[i - start];
      }
    }
  }

  /** A sequence that agrees with `v` on the window and with `a` elsewhere is the update. */
  lemma UpdatedPointwise(a: seq<nat>, b: seq<nat>, start: nat, v: seq<nat>)
    requires start + |v| <= |a| == |b|
    requires forall k :: 0 <= k < |v| ==> b[start + k] == v[k]
    requires forall k :: 0 <= k < |a| && !(start <= k < start + |v|) ==> b[k] == a[k]
    ensures b == Updated(a, start, v)
  {
    var r := Updated(a, start, v);
    forall k | 0 <= k < |a|
      ensures b[k] == r[k]
    {
      if start <= k < start + |v| {
        assert b[start + (k - start)] == v[k - start];
      }
    }
  }

  lemma ZerosInRange(w: Width, l: nat)
    ensures InRange(w, seq(l, _ => 0))
  {
  }

  /** The remainder of a parse, behind the elements already read. */
  function Prepend(v: seq<nat>, o: Option<seq<nat>>): Option<seq<nat>> {
    match o
    case None => None
    case Some(t) => Some(v + t)
  }

  lemma PrependNothing(o: Option<seq<nat>>)
    ensures Prepend([], o) == o
  {
    if o.Some? {
      assert [] + o.value == o.value;
    }
  }

  /** One parsed pair moves from the text to the elements read. */
  lemma PrependPair(v: seq<nat>, t: string, b: nat)
    requires |t| >= 2 && ParsePair(t[0], t[1]) == Some(b)
    ensures Prepend(v, HexDecode(t)) == Prepend(v + [b], HexDecode(t[2..]))
  {
    var rest := HexDecode(t[2..]);
    if rest.Some? {
      assert HexDecode(t) == Some([b] + rest.value);
      assert v + ([b] + rest.value) == v + [b] + rest.value;
    } else {
      assert HexDecode(t) == None;
    }
  }

  class FixedArray {
    const width: Width
    const len: nat
    const data: array<nat>

    /** The buffer has the fixed length and holds values of the element type. */
    ghost predicate Valid()
      reads this, data
    {
      data.Length == len && InRange(width, data[..])
    }

    function Contents(): seq<nat>
      reads this, data
    {
      data[..]
    }

    /** `new` and `default`: `l` default elements. */
    constructor New(w: Width, l: nat)
      ensures Valid() && width == w && len == l && fresh(data)
      ensures Contents() == seq(l, _ => 0)
    {
      width, len := w, l;
      data := new nat[l](_ => 0);
      new;
      ZerosInRange(w, l);
    }

    /** `from_array`: a copy of an array of exactly `l` elements. */
    constructor FromArray(w: Width, l: nat, v: seq<nat>)
      requires |v| == l && InRange(w, v)
      ensures Valid() && width == w && len == l && fresh(data)
      ensures Contents() == v
    {
      width, len := w, l;
      data := new nat[l](i requires 0 <= i < l => v[i]);
    }

    /** The loop shared by the prefix copies: `v` written over `l` defaults. */
    static method PaddedBuffer(v: seq<nat>, l: nat) returns (tmp: array<nat>)
      requires |v| <= l
      ensures fresh(tmp) && tmp[..] == Padded(v, l)
    {
      tmp := new nat[l](_ => 0);
      for i := 0 to |v|
        invariant forall k :: 0 <= k < i ==> tmp[k] == v[k]
        invariant forall k :: i <= k < l ==> tmp[k] == 0
      {
        tmp[i] := v[i];
      }
    }

    /** `from_slice`: at most `l` elements, padded with defaults. */
    constructor FromSlice(w: Width, l: nat, v: seq<nat>)
      requires |v| <= l && InRange(w, v)
      ensures Valid() && width == w && len == l && fresh(data)
      ensures Contents() == Padded(v, l)
    {
      var tmp := PaddedBuffer(v, l);
      width, len, data := w, l, tmp;
    }

    /** `copy_pad`: at most `l` elements, padded with defaults. */
    constructor CopyPad(w: Width, l: nat, v: seq<nat>)
      requires |v| <= l && InRange(w, v)
      ensures Valid() && width == w && len == l && fresh(data)
      ensures Contents() == Padded(v, l)
    {
      var tmp := PaddedBuffer(v, l);
      width, len, data := w, l, tmp;
    }

    /** `copy`: exactly `l` elements. */
    constructor Copy(w: Width, l: nat, v: seq<nat>)
      requires |v| == l && InRange(w, v)
      ensures Valid() && width == w && len == l && fresh(data)
      ensures Contents() == v
    {
      var tmp := PaddedBuffer(v, l);
      width, len, data := w, l, tmp;
    }

    /** `from_vec`: at most `l` elements, padded with defaults. */
    constructor FromVec(w: Width, l: nat, v: seq<nat>)
      requires |v| <= l && InRange(w, v)
      ensures Valid() && width == w && len == l && fresh(data)
      ensures Contents() == Padded(v, l)
    {
      var tmp := PaddedBuffer(v, l);
      width, len, data := w, l, tmp;
    }

    /** `from_seq`: at most `l` elements, padded with defaults. */
    constructor FromSeq(w: Width, l: nat, v: seq<nat>)
      requires |v| <= l && InRange(w, v)
      ensures Valid() && width == w && len == l && fresh(data)
      ensures Contents() == Padded(v, l)
    {
      var tmp := PaddedBuffer(v, l);
      width, len, data := w, l, tmp;
    }

    /** The sub-range loop: position `i` of `start..end` that exists in `input`
        is written to `i - start`. */
    static method SubPadBuffer(input: seq<nat>, start: nat, end: nat, l: nat) returns (a: array<nat>)
      requires start <= end && SubCount(|input|, start, end) <= l
      ensures fresh(a) && a[..] == SubPadded(input, start, end, l)
    {
      a := new nat[l](_ => 0);
      var stop := start + SubCount(|input|, start, end);
      for i := start to stop
        invariant forall k :: 0 <= k < i - start ==> a[k] == input[start + k]
        invariant forall k :: i - start <= k < l ==> a[k] == 0
      {
        a[i - start] := input[i];
      }
    }

    /** `from_sub_pad`: the existing part of `input[start..end]`, padded. The copy
        must fit in `l` elements. */
    constructor FromSubPad(w: Width, l: nat, input: seq<nat>, start: nat, end: nat)
      requires start <= end && SubCount(|input|, start, end) <= l && InRange(w, input)
      ensures Valid() && width == w && len == l && fresh(data)
      ensures Contents() == SubPadded(input, start, end, l)
    {
      var tmp := SubPadBuffer(input, start, end, l);
      width, len, data := w, l, tmp;
    }

    /** `from_sub`: like `from_sub_pad` for a range of exactly `l` positions. */
    constructor FromSub(w: Width, l: nat, input: seq<nat>, start: nat, end: nat)
      requires start <= end && l == end - start && InRange(w, input)
      ensures Valid() && width == w && len == l && fresh(data)
      ensures Contents() == SubPadded(input, start, end, l)
    {
      var tmp := SubPadBuffer(input, start, end, l);
      width, len, data := w, l, tmp;
    }

    /** `len` and `capacity`: the fixed length, whatever the contents. */
    function Len(): (r: nat)
      reads this, data
      requires Valid()
      ensures r == |Contents()|
    {
      len
    }

    /** Indexing by an unsigned position below the length. */
    function Get(i: nat): (r: nat)
      reads this, data
      requires Valid() && i < len
      ensures r == Contents()[i] && r < Bound(width)
    {
      data[i]
    }

    /** Mutable indexing: one position takes a new value of the element type. */
    method Set(i: nat, x: nat)
      requires Valid() && i < len && x < Bound(width)
      modifies data
      ensures Valid() && Contents() == old(Contents())[i := x]
    {
      data[i] := x;
    }

    /** `update`: positions `start..start+|v|` become `v`, in place. */
    method Update(start: nat, v: seq<nat>)
      requires Valid() && start + |v| <= len && InRange(width, v)
      modifies data
      ensures Valid() && Contents() == Updated(old(Contents()), start, v)
    {
      for i := 0 to |v|
        invariant forall k :: 0 <= k < i ==> data[start + k] == v[k]
        invariant forall k :: 0 <= k < len && !(start <= k < start + i) ==> data[k] == old(data[k])
      {
        data[start + i] := v[i];
      }
      UpdatedPointwise(old(data[..]), data[..], start, v);
      UpdatedInRange(width, old(data[..]), start, v);
    }

    /** `update_sub`: positions `startOut..startOut+n` become `v[startIn..startIn+n]`. */
    method UpdateSub(startOut: nat, v: seq<nat>, startIn: nat, n: nat)
      requires Valid() && startOut + n <= len && startIn + n <= |v| && InRange(width, v)
      modifies data
      ensures Valid() && Contents() == Updated(old(Contents()), startOut, v[startIn..startIn + n])
    {
      var window := v[startIn..startIn + n];
      for i := 0 to n
        invariant forall k :: 0 <= k < i ==> data[startOut + k] == window[k]
        invariant forall k :: 0 <= k < len && !(startOut <= k < startOut + i) ==> data[k] == old(data[k])
      {
        data[startOut + i] := v[startIn + i];
      }
      UpdatedPointwise(old(data[..]), data[..], startOut, window);
      UpdatedInRange(width, old(data[..]), startOut, window);
    }

    /** `chunks`: pieces of `k` elements, the last possibly shorter. */
    function Chunks(k: nat): (cs: seq<(nat, seq<nat>)>)
      reads this, data
      requires k > 0
      ensures |cs| == (|Contents()| + k - 1) / k
      ensures Flatten(cs) == Contents()
      ensures forall i :: 0 <= i < |cs| ==>
        cs[i].0 == |cs[i].1| && 0 < cs[i].0 <= k && (i < |cs| - 1 ==> cs[i].0 == k)
    {
      ChunksCount(data[..], k);
      ChunksConcat(data[..], k);
      ChunksPieces(data[..], k);
      ChunksOf(data[..], k)
    }

    /** `to_bytes_be`: every element as `Size(width)` big-endian bytes, element
        `i` at positions `i * F .. i * F + F`. */
    method ToBytesBE() returns (out: seq<nat>)
      requires Valid()
      ensures out == Serialize(true, Size(width), Contents())
    {
      var f := Size(width);
      var buf := new nat[len * f](_ => 0);
      for i := 0 to len
        invariant i * f <= len * f
        invariant buf[..i * f] == Serialize(true, f, data[..i])
      {
        var base := i * f;
        assert base + f <= len * f by {
          MulSucc(i, f);
          MulMono(i + 1, len, f);
        }
        WriteBytes(buf, base, BytesBE(f, data[i]));
        assert data[..i + 1] == data[..i] + [data[i]];
        SerializeSnoc(true, f, data[..i], data[i]);
        MulSucc(i, f);
      }
      assert data[..len] == data[..];
      out := buf[..];
    }

    /** The inner loop of `to_bytes_be`: the bytes of one element written from
        position `base` on. */
    static method WriteBytes(buf: array<nat>, base: nat, tmp: seq<nat>)
      requires base + |tmp| <= buf.Length
      modifies buf
      ensures buf[..base + |tmp|] == old(buf[..base]) + tmp
      ensures buf[base + |tmp|..] == old(buf[base + |tmp|..])
    {
      for j := 0 to |tmp|
        invariant buf[..base + j] == old(buf[..base]) + tmp[..j]
        invariant buf[base + |tmp|..] == old(buf[base + |tmp|..])
      {
        buf[base + j] := tmp[j];
        assert tmp[..j + 1] == tmp[..j] + [tmp[j]];
      }
      assert tmp[..|tmp|] == tmp;
    }

    /** The regrouping loop of the byte arrays: one word per piece of `n`
        elements, read in the given byte order. */
    method ToWords(bigEndian: bool, n: nat) returns (out: seq<nat>)
      requires Valid() && width == W8 && n > 0 && len % n == 0
      ensures out == Words(bigEndian, n, Contents())
    {
      var chunks := Chunks(n);
      WordsOfChunks(bigEndian, n, data[..]);
      WordsLength(bigEndian, n, data[..]);
      ghost var words := Words(bigEndian, n, data[..]);
      var buf := new nat[len / n](_ => 0);
      for i := 0 to |chunks|
        invariant forall k :: 0 <= k < i ==> buf[k] == words[k]
      {
        var block := chunks[i].1;
        assert |block| == n;
        buf[i] := Value(bigEndian, block);
      }
      out := buf[..];
    }

    /** `to_u32s_be` of a byte array. */
    method ToU32sBE() returns (out: seq<nat>)
      requires Valid() && width == W8 && len % 4 == 0
      ensures out == Words(true, 4, Contents())
    {
      out := ToWords(true, 4);
    }

    /** `to_u32s_le` of a byte array. */
    method ToU32sLE() returns (out: seq<nat>)
      requires Valid() && width == W8 && len % 4 == 0
      ensures out == Words(false, 4, Contents())
    {
      out := ToWords(false, 4);
    }

    /** `to_u64s_be` of a byte array. */
    method ToU64sBE() returns (out: seq<nat>)
      requires Valid() && width == W8 && len % 8 == 0
      ensures out == Words(true, 8, Contents())
    {
      out := ToWords(true, 8);
    }

    /** `to_u64s_le` of a byte array. */
    method ToU64sLE() returns (out: seq<nat>)
      requires Valid() && width == W8 && len % 8 == 0
      ensures out == Words(false, 8, Contents())
    {
      out := ToWords(false, 8);
    }

    /** `to_u128s_be` of a byte array. */
    method ToU128sBE() returns (out: seq<nat>)
      requires Valid() && width == W8 && len % 16 == 0
      ensures out == Words(true, 16, Contents())
    {
      out := ToWords(true, 16);
    }

    /** `to_u128s_le` of a byte array. */
    method ToU128sLE() returns (out: seq<nat>)
      requires Valid() && width == W8 && len % 16 == 0
      ensures out == Words(false, 16, Contents())
    {
      out := ToWords(false, 16);
    }

    /** `hex_string_to_vec`: the text two characters at a time, each pair one
        element; `None` where the source panics on a pair that does not parse or
        on a final single character. The text length must be a multiple of the
        element size. */
    static method HexStringToVec(w: Width, s: string) returns (r: Option<seq<nat>>)
      requires |s| % Size(w) == 0
      ensures r == HexDecode(s)
    {
      var v: seq<nat> := [];
      var i := 0;
      assert s[0..] == s;
      PrependNothing(HexDecode(s));
      while i < |s|
        invariant i <= |s|
        invariant HexDecode(s) == Prepend(v, HexDecode(s[i..]))
      {
        if i + 2 > |s| {
          return None;
        }
        var b := ParsePair(s[i], s[i + 1]);
        if b.None? {
          return None;
        }
        PrependPair(v, s[i..], b.value);
        assert s[i..][2..] == s[i + 2..];
        v := v + [b.value];
        i := i + 2;
      }
      assert v + [] == v;
      return Some(v);
    }

    /** `from_hex`: an array of exactly the `l` elements the text parses to. */
    constructor FromHex(w: Width, l: nat, s: string)
      requires |s| % Size(w) == 0 && HexDecode(s).Some? && |HexDecode(s).value| == l
      ensures Valid() && width == w && len == l && fresh(data)
      ensures Contents() == HexDecode(s).value
    {
      var v := HexStringToVec(w, s);
      var o := new nat[l](_ => 0);
      for i := 0 to l
        invariant forall k :: 0 <= k < i ==> o[k] == v.value[k]
      {
        o[i] := v.value[i];
      }
      width, len, data := w, l, o;
      new;
      HexDecodeShape(s);
      BoundHoldsBytes(w);
      assert data[..] == v.value;
    }

    /** `to_hex` of a byte array: two lower-case digits per element. */
    method ToHex() returns (s: string)
      requires Valid() && width == W8
      ensures s == HexEncode(Contents())
    {
      assert Bound(W8) == 256;
      s := "";
      for i := 0 to len
        invariant IsBytes(data[..i]) && s == HexEncode(data[..i])
      {
        assert data[..i + 1] == data[..i] + [data[i]];
        HexEncodeSnoc(data[..i], data[i]);
        s := s + HexByte(data[i]);
      }
      assert data[..len] == data[..];
    }
  }

  /** Printing a byte array and reading the text back gives an array with the
      same elements. */
  method HexRoundTrip(a: FixedArray) returns (b: FixedArray)
    requires a.Valid() && a.width == W8
    ensures b.Valid() && b.width == W8 && b.len == a.len && b.Contents() == a.Contents()
  {
    var s := a.ToHex();
    assert Bound(W8) == 256;
    HexEncodeShape(a.Contents());
    HexDecodeEncode(a.Contents());
    b := new FixedArray.FromHex(W8, a.len, s);
  }
}
