/** What the other modules share: options, dictionaries, byte strings, big-endian integers and the
    length-prefixed framing of the canonical encodings. */
module Bytes {

  datatype Option<+T> = None | Some(value: T)

  /** A dictionary after one key has been popped. */
  function Without<K(!new, ==), V>(m: map<K, V>, key: K): (r: map<K, V>)
    ensures key !in r && forall k :: k in r <==> k in m && k != key
    ensures forall k :: k in r ==> r[k] == m[k]
  {
    map k | k in m && k != key :: m[k]
  }

  type Byte = b: int | 0 <= b < 256

  type Bytes = seq<Byte>

  function Pow256(k: nat): (p: nat)
    ensures p >= 1
  {
    if k == 0 then 1 else 256 * Pow256(k - 1)
  }

  /** `int.to_bytes(width, "big")`. */
  function BigEndian(n: nat, width: nat): (s: Bytes)
    requires n < Pow256(width)
    ensures |s| == width
  {
    if width == 0 then [] else BigEndian(n / 256, width - 1) + [n % 256]
  }

  function FromBigEndian(s: Bytes): (n: nat)
    ensures n < Pow256(|s|)
  {
    if s == [] then 0 else FromBigEndian(s[..|s| - 1]) * 256 + s[|s| - 1]
  }

  lemma {:induction false} BigEndianRoundTrip(n: nat, width: nat)
    requires n < Pow256(width)
    ensures FromBigEndian(BigEndian(n, width)) == n
  {
    if width > 0 {
      BigEndianRoundTrip(n / 256, width - 1);
      assert BigEndian(n, width)[..width - 1] == BigEndian(n / 256, width - 1);
    }
  }

  /** Whether a value fits the four-byte length field; `to_bytes` raises otherwise. */
  predicate FitsPrefix(value: Bytes) {
    |value| < Pow256(4)
  }

  /** `length_prefix`: four-byte big-endian length, then the value. */
  function LengthPrefix(value: Bytes): (s: Bytes)
    requires FitsPrefix(value)
  {
    BigEndian(|value|, 4) + value
  }

  /** A length-prefixed value is self-delimiting: it can be read back whatever follows it. */
  lemma LengthPrefixSelfDelimiting(a: Bytes, x: Bytes, b: Bytes, y: Bytes)
    requires FitsPrefix(a) && FitsPrefix(b)
    requires LengthPrefix(a) + x == LengthPrefix(b) + y
    ensures a == b && x == y
  {
    var s := LengthPrefix(a) + x;
    assert s[..4] == BigEndian(|a|, 4) && s[4..] == a + x;
    assert s[..4] == BigEndian(|b|, 4) && s[4..] == b + y;
    BigEndianRoundTrip(|a|, 4);
    BigEndianRoundTrip(|b|, 4);
    ConcatSplit(a, x, b, y);
  }

  /** Two concatenations with equally long heads agree part by part. */
  lemma ConcatSplit<T>(a: seq<T>, x: seq<T>, b: seq<T>, y: seq<T>)
    requires |a| == |b| && a + x == b + y
    ensures a == b && x == y
  {
    assert a == (a + x)[..|a|] && b == (b + y)[..|b|];
    assert x == (a + x)[|a|..] && y == (b + y)[|b|..];
  }
}
