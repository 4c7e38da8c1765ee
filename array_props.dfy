/** Properties of the array specification: the index contracts of the
    serialisation and regrouping loops, their round trips, chunking and hex. */
module ArrayProps {
  import opened Wrappers
  import opened ByteOrder
  import opened ArraySpec

  /** Serialising `|ws|` words of `n` bytes gives `|ws| * n` bytes. */
  lemma {:induction false} SerializeLength(bigEndian: bool, n: nat, ws: seq<nat>)
    ensures |Serialize(bigEndian, n, ws)| == |ws| * n
  {
    if ws != [] {
      SerializeLength(bigEndian, n, ws[1..]);
      MulSucc(|ws| - 1, n);
    }
  }

  /** Byte `j` of word `i` lands at position `i * n + j`. */
  lemma {:induction false} SerializeIndex(bigEndian: bool, n: nat, ws: seq<nat>, i: nat, j: nat)
    requires i < |ws| && j < n
    ensures i * n + j < |Serialize(bigEndian, n, ws)|
    ensures Serialize(bigEndian, n, ws)[i * n + j] == Bytes(bigEndian, n, ws[i])[j]
  {
    SerializeLength(bigEndian, n, ws);
    var k := i * n;
    assert k + j < |ws| * n by {
      MulMono(i + 1, |ws|, n);
      MulSucc(i, n);
    }
    var head := Bytes(bigEndian, n, ws[0]);
    var rest := Serialize(bigEndian, n, ws[1..]);
    assert Serialize(bigEndian, n, ws) == head + rest;
    if i > 0 {
      SerializeIndex(bigEndian, n, ws[1..], i - 1, j);
      var k' := (i - 1) * n;
      assert k == k' + n by { MulSucc(i - 1, n); }
      MulMono(0, i - 1, n);
      IndexConcat(head, rest, k' + j);
    }
  }

  lemma IndexConcat(a: seq<nat>, b: seq<nat>, p: int)
    requires 0 <= p < |b|
    ensures (a + b)[|a| + p] == b[p]
  {
  }

  lemma {:induction false} WordsLength(bigEndian: bool, n: nat, bs: seq<nat>)
    requires n > 0
    ensures |Words(bigEndian, n, bs)| == |bs| / n
    decreases |bs|
  {
    if |bs| >= n {
      WordsLength(bigEndian, n, bs[n..]);
      DivSub(|bs|, n);
    }
  }

  /** Word `i` is read from bytes `i * n .. i * n + n`. */
  lemma {:induction false} WordsIndex(bigEndian: bool, n: nat, bs: seq<nat>, i: nat)
    requires n > 0 && i * n + n <= |bs|
    ensures i < |Words(bigEndian, n, bs)|
    ensures Words(bigEndian, n, bs)[i] == Value(bigEndian, bs[i * n..i * n + n])
    decreases i
  {
    if i > 0 {
      MulSucc(i - 1, n);
      WordsIndex(bigEndian, n, bs[n..], i - 1);
      assert bs[n..][(i - 1) * n..(i - 1) * n + n] == bs[i * n..i * n + n];
    }
  }

  lemma ValueOfBytes(bigEndian: bool, n: nat, x: nat)
    requires x < Pow256(n)
    ensures Value(bigEndian, Bytes(bigEndian, n, x)) == x
  {
    if bigEndian { ValueOfBytesBE(n, x); } else { ValueOfBytesLE(n, x); }
  }

  lemma BytesOfValue(bigEndian: bool, bs: seq<nat>)
    requires IsBytes(bs)
    ensures Bytes(bigEndian, |bs|, Value(bigEndian, bs)) == bs
  {
    if bigEndian { BytesOfValueBE(bs); } else { BytesOfValueLE(bs); }
  }

  /** Reading serialised words back as words gives the words. */
  lemma {:induction false} WordsOfSerialize(bigEndian: bool, n: nat, ws: seq<nat>)
    requires n > 0 && forall i :: 0 <= i < |ws| ==> ws[i] < Pow256(n)
    ensures Words(bigEndian, n, Serialize(bigEndian, n, ws)) == ws
  {
    if ws != [] {
      var head := Bytes(bigEndian, n, ws[0]);
      var rest := Serialize(bigEndian, n, ws[1..]);
      assert (head + rest)[..n] == head && (head + rest)[n..] == rest;
      ValueOfBytes(bigEndian, n, ws[0]);
      WordsOfSerialize(bigEndian, n, ws[1..]);
    }
  }

  /** Writing out the words of a byte string whose length is a multiple of `n`
      gives the byte string back. */
  lemma {:induction false} SerializeOfWords(bigEndian: bool, n: nat, bs: seq<nat>)
    requires n > 0 && IsBytes(bs) && |bs| % n == 0
    ensures Serialize(bigEndian, n, Words(bigEndian, n, bs)) == bs
    decreases |bs|
  {
    if bs != [] {
      assert |bs| >= n;
      DivSub(|bs|, n);
      assert IsBytes(bs[..n]) && IsBytes(bs[n..]);
      BytesOfValue(bigEndian, bs[..n]);
      SerializeOfWords(bigEndian, n, bs[n..]);
      assert bs == bs[..n] + bs[n..];
    }
  }

  lemma {:induction false} SerializeSnoc(bigEndian: bool, n: nat, ws: seq<nat>, w: nat)
    ensures Serialize(bigEndian, n, ws + [w]) == Serialize(bigEndian, n, ws) + Bytes(bigEndian, n, w)
  {
    if ws == [] {
      assert [w][1..] == [];
    } else {
      assert (ws + [w])[1..] == ws[1..] + [w];
      SerializeSnoc(bigEndian, n, ws[1..], w);
    }
  }

  /** On a length that is a multiple of `n`, the pieces of `n` elements are
      exactly `n` long and their values are the words. */
  lemma {:induction false} WordsOfChunks(bigEndian: bool, n: nat, a: seq<nat>)
    requires n > 0 && |a| % n == 0
    ensures var cs, ws := ChunksOf(a, n), Words(bigEndian, n, a);
      |cs| == |ws| && forall i :: 0 <= i < |cs| ==> cs[i].0 == n && ws[i] == Value(bigEndian, cs[i].1)
    decreases |a|
  {
    if a != [] {
      DivSub(|a|, n);
      WordsOfChunks(bigEndian, n, a[n..]);
      if |a| == n {
        assert a[n..] == [] && a[..n] == a;
      }
    }
  }

  // Chunking

  /** Every piece carries its own length, which is between 1 and `k`, and every
      piece but the last has exactly `k` elements. */
  lemma {:induction false} ChunksPieces(a: seq<nat>, k: nat)
    requires k > 0
    ensures var cs := ChunksOf(a, k);
      forall i :: 0 <= i < |cs| ==> cs[i].0 == |cs[i].1| && 0 < cs[i].0 <= k && (i < |cs| - 1 ==> cs[i].0 == k)
    decreases |a|
  {
    if |a| > k {
      ChunksPieces(a[k..], k);
      var cs := ChunksOf(a, k);
      assert forall i :: 1 <= i < |cs| ==> cs[i] == ChunksOf(a[k..], k)[i - 1];
    }
  }

  /** The pieces, put back together, are the array. */
  lemma {:induction false} ChunksConcat(a: seq<nat>, k: nat)
    requires k > 0
    ensures Flatten(ChunksOf(a, k)) == a
    decreases |a|
  {
    if |a| > k {
      ChunksConcat(a[k..], k);
      var cs := ChunksOf(a, k);
      assert cs[1..] == ChunksOf(a[k..], k);
      assert a == a[..k] + a[k..];
    } else if a != [] {
      assert ChunksOf(a, k)[1..] == [];
    }
  }

  /** There are `ceil(|a| / k)` pieces. */
  lemma {:induction false} ChunksCount(a: seq<nat>, k: nat)
    requires k > 0
    ensures |ChunksOf(a, k)| == (|a| + k - 1) / k
    decreases |a|
  {
    if a == [] {
      DivUnique(k - 1, k, 0, k - 1);
    } else if |a| <= k {
      DivUnique(|a| + k - 1, k, 1, |a| - 1);
    } else {
      ChunksCount(a[k..], k);
      DivSub(|a| + k - 1, k);
    }
  }

  /** The documented example: five elements in pieces of two. */
  lemma ChunksExample()
    ensures ChunksOf([0, 1, 2, 3, 4], 2) == [(2, [0, 1]), (2, [2, 3]), (1, [4])]
  {
    var a: seq<nat> := [0, 1, 2, 3, 4];
    assert a[..2] == [0, 1] && a[2..] == [2, 3, 4];
    var b: seq<nat> := [2, 3, 4];
    assert b[..2] == [2, 3] && b[2..] == [4];
  }

  // Hexadecimal text

  lemma LowerDigitValue(d: nat)
    requires d < 16
    ensures IsLowerDigit(LowerDigit(d)) && HexDigit(LowerDigit(d)) == Some(d)
  {
  }

  lemma DigitOfLower(c: char)
    requires IsLowerDigit(c)
    ensures HexDigit(c).Some? && HexDigit(c).value < 16 && LowerDigit(HexDigit(c).value) == c
  {
  }

  /** Printing gives two lower-case digits per element. */
  lemma {:induction false} HexEncodeShape(a: seq<nat>)
    requires IsBytes(a)
    ensures |HexEncode(a)| == 2 * |a| && IsLowerHex(HexEncode(a))
  {
    if a != [] {
      assert IsBytes(a[1..]);
      HexEncodeShape(a[1..]);
      LowerDigitValue(a[0] / 16);
      LowerDigitValue(a[0] % 16);
      var s := HexEncode(a);
      assert forall i :: 2 <= i < |s| ==> s[i] == HexEncode(a[1..])[i - 2];
    }
  }

  lemma {:induction false} HexEncodeSnoc(a: seq<nat>, b: nat)
    requires IsBytes(a) && b < 256
    ensures IsBytes(a + [b]) && HexEncode(a + [b]) == HexEncode(a) + HexByte(b)
  {
    if a == [] {
      assert [b][1..] == [];
    } else {
      assert (a + [b])[1..] == a[1..] + [b];
      assert IsBytes(a[1..]);
      HexEncodeSnoc(a[1..], b);
    }
  }

  /** Reading what was printed gives the elements back. */
  lemma {:induction false} HexDecodeEncode(a: seq<nat>)
    requires IsBytes(a)
    ensures HexDecode(HexEncode(a)) == Some(a)
  {
    if a != [] {
      var b := a[0];
      assert IsBytes(a[1..]);
      HexDecodeEncode(a[1..]);
      LowerDigitValue(b / 16);
      LowerDigitValue(b % 16);
      var s := HexEncode(a);
      assert s[0] == LowerDigit(b / 16) && s[1] == LowerDigit(b % 16);
      assert s[2..] == HexEncode(a[1..]);
      assert ParsePair(s[0], s[1]) == Some(b);
      assert a == [b] + a[1..];
    }
  }

  /** What parses has two characters per element, and every element is a byte. */
  lemma {:induction false} HexDecodeShape(s: string)
    requires HexDecode(s).Some?
    ensures |s| == 2 * |HexDecode(s).value| && IsBytes(HexDecode(s).value)
    decreases |s|
  {
    if s != [] {
      HexDecodeShape(s[2..]);
      var v := HexDecode(s).value;
      assert v[1..] == HexDecode(s[2..]).value;
    }
  }

  /** Even-length lower-case hex text parses, and printing the result gives the
      text back. */
  lemma {:induction false} HexEncodeDecode(s: string)
    requires IsLowerHex(s) && |s| % 2 == 0
    ensures HexDecode(s).Some?
    ensures IsBytes(HexDecode(s).value) && HexEncode(HexDecode(s).value) == s
    decreases |s|
  {
    if s != [] {
      var rest := s[2..];
      assert IsLowerHex(rest);
      HexEncodeDecode(rest);
      DigitOfLower(s[0]);
      DigitOfLower(s[1]);
      var d0, d1 := HexDigit(s[0]).value, HexDigit(s[1]).value;
      var b := 16 * d0 + d1;
      DivUnique(b, 16, d0, d1);
      assert s[0] != '+';
      assert HexDecode(s) == Some([b] + HexDecode(rest).value);
      var v := HexDecode(s).value;
      assert v[0] == b && v[1..] == HexDecode(rest).value;
      assert s == [s[0], s[1]] + rest;
    }
  }

  /** Worked cases of the parser: either case is accepted, a plus sign may lead a
      pair, and an odd length or a non-digit is refused. */
  lemma HexDecodeExamples()
    ensures HexDecode("0aFf") == Some([10, 255])
    ensures HexDecode("+f") == Some([15])
    ensures HexDecode("abc") == None
    ensures HexDecode("0g") == None
  {
    var empty: seq<nat> := [];
    assert HexDecode("") == Some(empty);
    assert "Ff"[2..] == "" && ParsePair('F', 'f') == Some(255);
    assert HexDecode("Ff") == Some([255] + empty);
    assert [255] + empty == [255];
    assert "0aFf"[2..] == "Ff" && ParsePair('0', 'a') == Some(10);
    assert HexDecode("0aFf") == Some([10] + [255]);
    assert [10] + [255] == [10, 255];
    assert "+f"[2..] == "" && ParsePair('+', 'f') == Some(15);
    assert HexDecode("+f") == Some([15] + empty);
    assert [15] + empty == [15];
    assert "abc"[2..] == "c";
  }
}
