/** What the fixed-length array operations compute, stated on sequences: the
    class in FixedArrays is proved against these definitions. */
module ArraySpec {
  import opened Wrappers
  import opened ByteOrder

  /** The unsigned element types an array is instantiated with. */
  datatype Width = W8 | W16 | W32 | W64 | W128

  /** Size of one element in bytes. */
  function Size(w: Width): nat {
    match w
    case W8 => 1
    case W16 => 2
    case W32 => 4
    case W64 => 8
    case W128 => 16
  }

  /** One more than the largest element value. */
  function Bound(w: Width): nat {
    Pow256(Size(w))
  }

  predicate InRange(w: Width, v: seq<nat>) {
    forall i :: 0 <= i < |v| ==> v[i] < Bound(w)
  }

  // Construction

  /** `v` followed by default (zero) elements up to length `l`. */
  function Padded(v: seq<nat>, l: nat): (r: seq<nat>)
    requires |v| <= l
    ensures |r| == l
    ensures forall i :: 0 <= i < |v| ==> r[i] == v[i]
    ensures forall i :: |v| <= i < l ==> r[i] == 0
  {
    v + seq(l - |v|, _ => 0)
  }

  /** How many elements a sub-range copy visits: the positions of `start..end`
      that exist in an input of length `n`. */
  function SubCount(n: nat, start: nat, end: nat): (c: nat)
    requires start <= end
    ensures c <= end - start && (c == 0 || start + c <= n)
  {
    if n <= start then 0 else if end <= n then end - start else n - start
  }

  /** Positions `start..end` of `input` that exist, moved to the front and padded
      with default elements to length `l`. */
  function SubPadded(input: seq<nat>, start: nat, end: nat, l: nat): (r: seq<nat>)
    requires start <= end && SubCount(|input|, start, end) <= l
    ensures |r| == l
    ensures forall j :: 0 <= j < l && start + j < end && start + j < |input| ==> r[j] == input[start + j]
    ensures forall j :: 0 <= j < l && !(start + j < end && start + j < |input|) ==> r[j] == 0
  {
    var c := SubCount(|input|, start, end);
    Padded(if c == 0 then [] else input[start..start + c], l)
  }

  // Window overwrites

  /** `a` with positions `start..start+|v|` replaced by `v`. */
  function Updated(a: seq<nat>, start: nat, v: seq<nat>): (r: seq<nat>)
    requires start + |v| <= |a|
    ensures |r| == |a|
    ensures forall i :: 0 <= i < |v| ==> r[start + i] == v[i]
    ensures forall i :: 0 <= i < |a| && !(start <= i < start + |v|) ==> r[i] == a[i]
  {
    a[..start] + v + a[start + |v|..]
  }

  // Byte serialisation and regrouping

  function Bytes(bigEndian: bool, n: nat, x: nat): (r: seq<nat>)
    ensures |r| == n && IsBytes(r)
  {
    if bigEndian then BytesBE(n, x) else BytesLE(n, x)
  }

  function Value(bigEndian: bool, bs: seq<nat>): nat {
    if bigEndian then ValueBE(bs) else ValueLE(bs)
  }

  /** Every element of `ws` written out as `n` bytes, one after the other. */
  function Serialize(bigEndian: bool, n: nat, ws: seq<nat>): seq<nat>
  {
    if ws == [] then [] else Bytes(bigEndian, n, ws[0]) + Serialize(bigEndian, n, ws[1..])
  }

  /** Consecutive groups of `n` bytes read as words; a short tail is dropped. */
  function Words(bigEndian: bool, n: nat, bs: seq<nat>): seq<nat>
    requires n > 0
    decreases |bs|
  {
    if |bs| < n then [] else [Value(bigEndian, bs[..n])] + Words(bigEndian, n, bs[n..])
  }

  // Chunking

  /** Consecutive pieces of length `k`, the last one possibly shorter, each with
      its length. */
  function ChunksOf(a: seq<nat>, k: nat): seq<(nat, seq<nat>)>
    requires k > 0
    decreases |a|
  {
    if a == [] then []
    else if |a| <= k then [(|a|, a)]
    else [(k, a[..k])] + ChunksOf(a[k..], k)
  }

  function Flatten(cs: seq<(nat, seq<nat>)>): seq<nat> {
    if cs == [] then [] else cs[0].1 + Flatten(cs[1..])
  }

  // Hexadecimal text

  /** A hexadecimal digit of either case. */
  function HexDigit(c: char): Option<nat> {
    if '0' <= c <= '9' then Some(c as nat - '0' as nat)
    else if 'a' <= c <= 'f' then Some(c as nat - 'a' as nat + 10)
    else if 'A' <= c <= 'F' then Some(c as nat - 'A' as nat + 10)
    else None
  }

  /** A two-character text read as an unsigned byte in base 16: two digits, or a
      plus sign followed by one digit. */
  function ParsePair(c0: char, c1: char): Option<nat> {
    if c0 == '+' then HexDigit(c1)
    else
      match (HexDigit(c0), HexDigit(c1))
      case (Some(d0), Some(d1)) => Some(16 * d0 + d1)
      case _ => None
  }

  /** Text read two characters at a time, one element per pair. `None` when a
      pair does not parse or a single character is left over. */
  function HexDecode(s: string): Option<seq<nat>>
    decreases |s|
  {
    if s == [] then Some([])
    else if |s| < 2 then None
    else
      match (ParsePair(s[0], s[1]), HexDecode(s[2..]))
      case (Some(b), Some(rest)) => Some([b] + rest)
      case _ => None
  }

  /** The lower-case hexadecimal digit of `d`. */
  function LowerDigit(d: nat): char
    requires d < 16
  {
    if d < 10 then ('0' as nat + d) as char else ('a' as nat + d - 10) as char
  }

  predicate IsLowerDigit(c: char) {
    '0' <= c <= '9' || 'a' <= c <= 'f'
  }

  /** A byte as exactly two lower-case hexadecimal digits. */
  function HexByte(b: nat): string
    requires b < 256
  {
    [LowerDigit(b / 16), LowerDigit(b % 16)]
  }

  function HexEncode(a: seq<nat>): string
    requires IsBytes(a)
  {
    if a == [] then "" else HexByte(a[0]) + HexEncode(a[1..])
  }

  predicate IsLowerHex(s: string) {
    forall i :: 0 <= i < |s| ==> IsLowerDigit(s[i])
  }
}
